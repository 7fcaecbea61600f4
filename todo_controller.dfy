/**
 * `TodoController`: the Content-Type gate and method dispatch, the id taken
 * from the last path segment by GET (digits only) and by PATCH and DELETE
 * (anything `Integer.parseInt` accepts), the status each handler answers,
 * and the unused `printBinary` helper.
 */
module TodoController {
  import opened Wrappers
  import opened JavaText
  import opened Http

  const JSON_MEDIA_TYPE := "application/json"

  datatype Route = BadRequest | MethodNotAllowed | Get | Post | Patch | Delete

  /** `anyMatch(header -> header.contains("application/json"))`. */
  predicate AnyJson(headers: seq<string>)
    ensures AnyJson(headers) <==> exists i :: 0 <= i < |headers| && Contains(headers[i], JSON_MEDIA_TYPE)
  {
    if headers == [] then false
    else if Contains(headers[0], JSON_MEDIA_TYPE) then true
    else
      assert forall i :: 1 <= i < |headers| ==> headers[i] == headers[1..][i - 1];
      AnyJson(headers[1..])
  }

  /**
   * Where `handle` sends a request: `None` for a missing Content-Type header,
   * otherwise the values the header carries.
   */
  function Dispatch(contentTypes: Option<seq<string>>, verb: string): (r: Route)
    ensures r == BadRequest <==> contentTypes.None? || !AnyJson(contentTypes.value)
    ensures r == MethodNotAllowed <==>
      r != BadRequest && verb != "GET" && verb != "POST" && verb != "PATCH" && verb != "DELETE"
    ensures r == Get <==> r != BadRequest && verb == "GET"
    ensures r == Post <==> r != BadRequest && verb == "POST"
    ensures r == Patch <==> r != BadRequest && verb == "PATCH"
    ensures r == Delete <==> r != BadRequest && verb == "DELETE"
  {
    if contentTypes.None? then BadRequest
    else if !AnyJson(contentTypes.value) then BadRequest
    else if verb == "GET" then Get
    else if verb == "POST" then Post
    else if verb == "PATCH" then Patch
    else if verb == "DELETE" then Delete
    else MethodNotAllowed
  }

  /** A header with parameters after the media type still passes the gate. */
  lemma JsonWithCharsetIsAccepted(verb: string)
    ensures Dispatch(Some(["text/plain", "application/json; charset=UTF-8"]), verb) != BadRequest
  {
    ContainsInfix("", JSON_MEDIA_TYPE, "; charset=UTF-8");
    assert "application/json; charset=UTF-8" == "" + JSON_MEDIA_TYPE + "; charset=UTF-8";
    assert ["text/plain", "application/json; charset=UTF-8"][1] == "application/json; charset=UTF-8";
  }

  // ---------------------------------------------------------------------
  // The id in the path

  /** `handleGet`: the trailing segment is an id only when it is all digits and fits in an `int`. */
  function GetTodoId(path: string): (id: Option<Int32>)
    ensures var seg := TrailingSegment(path);
      id.Some? <==> |seg| > 0 && AllDigits(seg) && DecimalValue(seg) <= INT_MAX
    ensures id.Some? ==> id.value >= 0 && id.value == DecimalValue(TrailingSegment(path))
  {
    var seg := TrailingSegment(path);
    if |seg| > 0 && AllDigits(seg) then
      ParseIntOfDigits(seg);
      ParseInt(seg)
    else None
  }

  /** `handlePatch` and `handleDelete`: whatever `Integer.parseInt` makes of the trailing segment. */
  function PathId(path: string): (id: Option<Int32>)
    ensures id == ParseInt(TrailingSegment(path))
    ensures id.None? ==>
      (TrailingSegment(path) == [] || !AllDigits(TrailingSegment(path)) || DecimalValue(TrailingSegment(path)) > INT_MAX)
  {
    var seg := TrailingSegment(path);
    if |seg| > 0 && AllDigits(seg) then
      ParseIntOfDigits(seg);
      ParseInt(seg)
    else ParseInt(seg)
  }

  /** Every id GET accepts, PATCH and DELETE read the same way. */
  lemma GetIdIsPathId(path: string)
    requires GetTodoId(path).Some?
    ensures PathId(path) == GetTodoId(path)
  {
    ParseIntOfDigits(TrailingSegment(path));
  }

  /** A non-negative id written after the last slash is read back by GET. */
  lemma GetTodoIdOfDecimal(prefix: string, n: Int32)
    requires n >= 0
    ensures GetTodoId(prefix + "/" + NatToDecimal(n)) == Some(n)
  {
    var seg := NatToDecimal(n);
    assert '/' !in seg;
    TrailingSegmentAfterSlash(prefix, seg);
  }

  /** A signed id reaches PATCH and DELETE, while GET falls back to the whole list. */
  lemma SignedIdOnlyForPatchAndDelete()
    ensures PathId("/todos/-1") == Some(-1)
    ensures GetTodoId("/todos/-1") == None
  {
    TrailingSegmentAfterSlash("/todos", "-1");
    assert "/todos/-1" == "/todos" + "/" + "-1";
    assert !IsDigit('-');
    assert "-1"[1..] == "1";
    assert DecimalValue("1") == 1 by {
      assert "1"[..0] == "";
    }
  }

  /** `handleGet`: always 200; the body is the list, the one todo, or a not-found message. */
  datatype GetBody = AllTodos | OneTodo(id: Int32) | NoSuchTodo(id: Int32)

  function HandleGet(path: string, present: Int32 -> bool): (r: (int, GetBody))
    ensures r.0 == OK
    ensures r.1 == AllTodos <==> GetTodoId(path).None?
    ensures r.1.OneTodo? ==> r.1.id == GetTodoId(path).value && present(r.1.id)
    ensures r.1.NoSuchTodo? ==> r.1.id == GetTodoId(path).value && !present(r.1.id)
  {
    match GetTodoId(path)
      case None => (OK, AllTodos)
      case Some(id) => (OK, if present(id) then OneTodo(id) else NoSuchTodo(id))
  }

  /**
   * `handlePost`: `created` is what `createTodo` returned, `None` when reading
   * or decoding the body threw.
   */
  function PostStatus(created: Option<bool>): (code: int)
    ensures code == CREATED <==> created == Some(true)
    ensures code != CREATED ==> code == BAD_REQUEST
  {
    if created == Some(true) then CREATED else BAD_REQUEST
  }

  /**
   * `handlePatch`: `present` answers `getTodoById`, `updated` is what
   * `updateTodo` returned, `None` when reading or decoding the body threw.
   */
  function PatchStatus(path: string, present: Int32 -> bool, updated: Option<bool>): (code: int)
    ensures PathId(path).None? ==> code == BAD_REQUEST
    ensures PathId(path).Some? && !present(PathId(path).value) ==> code == NOT_FOUND
    ensures code == OK <==> PathId(path).Some? && present(PathId(path).value) && updated == Some(true)
    ensures PathId(path).Some? && present(PathId(path).value) && updated != Some(true) ==> code == BAD_REQUEST
    ensures code in {OK, BAD_REQUEST, NOT_FOUND}
  {
    match PathId(path)
      case None => BAD_REQUEST
      case Some(id) =>
        if !present(id) then NOT_FOUND
        else if updated == Some(true) then OK
        else BAD_REQUEST
  }

  /** `handleDelete`: `deleted` answers whether `deleteTodo` found and removed the id. */
  function DeleteStatus(path: string, deleted: Int32 -> bool): (code: int)
    ensures code == BAD_REQUEST <==> PathId(path).None?
    ensures code == OK <==> PathId(path).Some? && deleted(PathId(path).value)
    ensures code in {OK, BAD_REQUEST, NOT_FOUND}
  {
    match PathId(path)
      case None => BAD_REQUEST
      case Some(id) => if deleted(id) then OK else NOT_FOUND
  }

  /** A path without a trailing id is a bad PATCH or DELETE. */
  lemma MissingIdIsBadRequest(prefix: string, present: Int32 -> bool, updated: Option<bool>, deleted: Int32 -> bool)
    ensures PatchStatus(prefix + "/", present, updated) == BAD_REQUEST
    ensures DeleteStatus(prefix + "/", deleted) == BAD_REQUEST
  {
    TrailingSegmentAfterSlash(prefix, "");
    assert prefix + "/" == prefix + "/" + "";
  }

  // ---------------------------------------------------------------------
  // printBinary

  /** A Java `byte`. */
  type JavaByte = b: int | -128 <= b < 128

  predicate IsBit(c: char) { c == '0' || c == '1' }

  predicate AllBits(s: string) { forall i :: 0 <= i < |s| ==> IsBit(s[i]) }

  /** The number a string of bits spells, most significant first. */
  function BinaryValue(s: string): nat
    requires AllBits(s)
  {
    if s == [] then 0 else BinaryValue(s[..|s| - 1]) * 2 + (if s[|s| - 1] == '1' then 1 else 0)
  }

  function Pow2(k: nat): nat { if k == 0 then 1 else 2 * Pow2(k - 1) }

  /** `Integer.toBinaryString` of a non-negative value: no leading zeros, "0" for zero. */
  function ToBinaryString(n: nat): (s: string)
    ensures |s| > 0 && AllBits(s)
    ensures BinaryValue(s) == n
    ensures n > 0 ==> s[0] == '1'
    ensures n < Pow2(|s|)
    ensures n == 0 || Pow2(|s| - 1) <= n
  {
    var bit := if n % 2 == 1 then '1' else '0';
    if n < 2 then [bit]
    else
      var s := ToBinaryString(n / 2) + [bit];
      assert s[..|s| - 1] == ToBinaryString(n / 2);
      s
  }

  /** `String.format("%8s", s)`: right-justified in a field of 8 spaces. */
  function Format8(s: string): (r: string)
    ensures |r| == if |s| < 8 then 8 else |s|
    ensures r[|r| - |s|..] == s
    ensures forall i :: 0 <= i < |r| - |s| ==> r[i] == ' '
  {
    if |s| < 8 then seq(8 - |s|, _ => ' ') + s else s
  }

  /** `replace(' ', '0')`. */
  function ReplaceSpaces(s: string): (r: string)
    ensures |r| == |s|
    ensures forall i :: 0 <= i < |s| ==> r[i] == if s[i] == ' ' then '0' else s[i]
  {
    seq(|s|, i requires 0 <= i < |s| => if s[i] == ' ' then '0' else s[i])
  }

  /** `b & 0xFF`: the byte, sign-extended to an `int`, masked to its low eight bits. */
  function Unsigned(b: JavaByte): (u: nat)
    ensures u < 256 && (u - b) % 256 == 0
    ensures b >= 0 ==> u == b
  {
    if b < 0 then b + 256 else b
  }

  /** The eight characters `printBinary` appends for one byte. */
  function ByteBits(b: JavaByte): string
  {
    ReplaceSpaces(Format8(ToBinaryString(Unsigned(b))))
  }

  lemma {:induction false} LeadingZeros(zeros: string, s: string)
    requires AllBits(s) && forall i :: 0 <= i < |zeros| ==> zeros[i] == '0'
    ensures AllBits(zeros + s)
    ensures BinaryValue(zeros + s) == BinaryValue(s)
    decreases |s|
  {
    if s == [] {
      assert zeros + s == zeros;
      AllZeros(zeros);
    } else {
      var t := zeros + s;
      assert t[..|t| - 1] == zeros + s[..|s| - 1];
      LeadingZeros(zeros, s[..|s| - 1]);
    }
  }

  lemma {:induction false} AllZeros(zeros: string)
    requires forall i :: 0 <= i < |zeros| ==> zeros[i] == '0'
    ensures AllBits(zeros) && BinaryValue(zeros) == 0
    decreases |zeros|
  {
    if zeros != [] {
      AllZeros(zeros[..|zeros| - 1]);
    }
  }

  /** Every byte becomes exactly eight bits that spell its unsigned value. */
  lemma ByteBitsValue(b: JavaByte)
    ensures |ByteBits(b)| == 8 && AllBits(ByteBits(b))
    ensures BinaryValue(ByteBits(b)) == Unsigned(b)
  {
    var s := ToBinaryString(Unsigned(b));
    if |s| > 8 {
      Pow2Of8();
      PowMonotone(8, |s| - 1);
    }
    var r := ByteBits(b);
    var zeros := r[..8 - |s|];
    assert r == zeros + s;
    LeadingZeros(zeros, s);
  }

  lemma Pow2Of8()
    ensures Pow2(8) == 256
  {
    assert Pow2(0) == 1;
    assert Pow2(1) == 2;
    assert Pow2(2) == 4;
    assert Pow2(3) == 8;
    assert Pow2(4) == 16;
    assert Pow2(5) == 32;
    assert Pow2(6) == 64;
    assert Pow2(7) == 128;
  }

  lemma {:induction false} PowMonotone(j: nat, k: nat)
    requires j <= k
    ensures Pow2(j) <= Pow2(k)
    decreases k
  {
    if j < k {
      PowMonotone(j, k - 1);
    }
  }

  /** Two different bytes never print the same. */
  lemma ByteBitsInjective(a: JavaByte, b: JavaByte)
    requires ByteBits(a) == ByteBits(b)
    ensures a == b
  {
    ByteBitsValue(a);
    ByteBitsValue(b);
  }

  /** The strings laid end to end. */
  function Concat(blocks: seq<string>): string
  {
    if blocks == [] then "" else Concat(blocks[..|blocks| - 1]) + blocks[|blocks| - 1]
  }

  predicate Octets(blocks: seq<string>)
  {
    forall i :: 0 <= i < |blocks| ==> |blocks[i]| == 8
  }

  lemma {:induction false} ConcatBlock(blocks: seq<string>, i: nat)
    requires Octets(blocks) && i < |blocks|
    ensures |Concat(blocks)| == 8 * |blocks|
    ensures Concat(blocks)[8 * i..8 * i + 8] == blocks[i]
  {
    var init := blocks[..|blocks| - 1];
    var prev, block := Concat(init), blocks[|blocks| - 1];
    assert Octets(init);
    if i < |init| {
      ConcatBlock(init, i);
      assert (prev + block)[8 * i..8 * i + 8] == prev[8 * i..8 * i + 8];
    } else {
      if init != [] {
        ConcatBlock(init, 0);
      }
      assert (prev + block)[|prev|..] == block;
    }
  }

  lemma {:induction false} ConcatAllBits(blocks: seq<string>)
    requires forall i :: 0 <= i < |blocks| ==> AllBits(blocks[i])
    ensures AllBits(Concat(blocks))
  {
    if blocks != [] {
      ConcatAllBits(blocks[..|blocks| - 1]);
      assert AllBits(blocks[|blocks| - 1]);
    }
  }

  /** The eight-character block of each byte, in order. */
  function Blocks(bytes: seq<JavaByte>): (blocks: seq<string>)
    ensures |blocks| == |bytes|
  {
    seq(|bytes|, i requires 0 <= i < |bytes| => ByteBits(bytes[i]))
  }

  /** What `printBinary` builds: the blocks of all bytes, end to end. */
  function Binary(bytes: seq<JavaByte>): string
  {
    Concat(Blocks(bytes))
  }

  /** Eight bits per byte; block `i` is the rendering of byte `i`, which spells its unsigned value. */
  lemma BinaryBlocks(bytes: seq<JavaByte>)
    ensures |Binary(bytes)| == 8 * |bytes| && AllBits(Binary(bytes))
    ensures forall i :: 0 <= i < |bytes| ==> Binary(bytes)[8 * i..8 * i + 8] == ByteBits(bytes[i])
  {
    var blocks := Blocks(bytes);
    forall i | 0 <= i < |bytes|
      ensures |blocks[i]| == 8 && AllBits(blocks[i])
    {
      ByteBitsValue(bytes[i]);
    }
    ConcatAllBits(blocks);
    if bytes != [] {
      ConcatBlock(blocks, 0);
    }
    forall i | 0 <= i < |bytes|
      ensures Binary(bytes)[8 * i..8 * i + 8] == ByteBits(bytes[i])
    {
      ConcatBlock(blocks, i);
    }
  }

  /** `printBinary` on the bytes of the string. */
  method PrintBinary(bytes: seq<JavaByte>) returns (binary: string)
    ensures binary == Binary(bytes)
    ensures |binary| == 8 * |bytes| && AllBits(binary)
    ensures forall i :: 0 <= i < |bytes| ==> binary[8 * i..8 * i + 8] == ByteBits(bytes[i])
  {
    var blocks := Blocks(bytes);
    binary := "";
    for k := 0 to |bytes|
      invariant binary == Concat(blocks[..k])
    {
      assert blocks[..k + 1][..k] == blocks[..k];
      binary := binary + ByteBits(bytes[k]);
    }
    assert blocks[..|bytes|] == blocks;
    BinaryBlocks(bytes);
  }
}
