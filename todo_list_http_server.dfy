/**
 * `TodoListHttpServer`: the first server, with its todo list in a static
 * field, a hand-built JSON-like array for GET, append for POST, delete by
 * the `id` query parameter, and the listening port taken from `PORT`.
 */
module TodoListHttpServer {
  import opened Wrappers
  import opened JavaText
  import opened Query
  import opened Http

  const DEFAULT_PORT: Int32 := 8080

  /** The port `main` listens on: `PORT` when it parses as an `int`, 8080 otherwise. */
  function PortFromEnv(portEnv: Option<string>): (port: Int32)
    ensures portEnv.None? ==> port == DEFAULT_PORT
    ensures portEnv.Some? && ParseInt(portEnv.value).None? ==> port == DEFAULT_PORT
    ensures portEnv.Some? && ParseInt(portEnv.value).Some? ==> port == ParseInt(portEnv.value).value
  {
    if portEnv.None? then DEFAULT_PORT
    else match ParseInt(portEnv.value)
      case Some(p) => p
      case None => DEFAULT_PORT
  }

  /** Whatever `int` the variable spells, that is the port. */
  lemma PortFromDecimal(p: Int32)
    ensures PortFromEnv(Some(IntToDecimal(p))) == p
  {
    ParseIntOfDecimal(p);
  }

  // ---------------------------------------------------------------------
  // The GET rendering: "[" + "\"a\",\"b\"" + "]", with no escaping

  function Quote(item: string): string
  {
    "\"" + item + "\""
  }

  /**
   * The quoted items separated by commas: two quotes per item and one comma
   * between neighbours, around the items' own characters.
   */
  function Items(items: seq<string>): (r: string)
    ensures items == [] ==> r == ""
    ensures items != [] ==> |r| == 3 * |items| - 1 + TotalLength(items)
    ensures items != [] ==> r[0] == '"' && r[|r| - 1] == '"'
  {
    if |items| == 0 then ""
    else if |items| == 1 then Quote(items[0])
    else Quote(items[0]) + "," + Items(items[1..])
  }

  /** The number of characters in all the items together. */
  function TotalLength(items: seq<string>): nat
  {
    if items == [] then 0 else |items[0]| + TotalLength(items[1..])
  }

  /** The response body of GET: the items inside square brackets, `[]` for none. */
  function Render(items: seq<string>): (r: string)
    ensures |r| == if items == [] then 2 else 3 * |items| + 1 + TotalLength(items)
    ensures r[0] == '[' && r[|r| - 1] == ']'
    ensures items == [] <==> r == "[]"
  {
    "[" + Items(items) + "]"
  }

  lemma {:induction false} ItemsSnoc(items: seq<string>, item: string)
    requires items != []
    ensures Items(items + [item]) == Items(items) + "," + Quote(item)
  {
    if |items| > 1 {
      assert (items + [item])[1..] == items[1..] + [item];
      ItemsSnoc(items[1..], item);
    } else {
      assert (items + [item])[1..] == [item];
    }
  }

  /** Read back the items of `Items`, taking each item up to the next quote. */
  function DecodeItems(s: string): Option<seq<string>>
    decreases |s|
  {
    if s == [] then Some([])
    else if s[0] != '"' then None
    else
      var j := IndexOf(s[1..], '"');
      if j == |s| - 1 then None
      else
        var item := s[1..1 + j];
        var after := s[2 + j..];
        if after == [] then Some([item])
        else if after[0] != ',' || |after| == 1 then None
        else match DecodeItems(after[1..])
          case None => None
          case Some(rest) => Some([item] + rest)
  }

  function Decode(s: string): Option<seq<string>>
  {
    if |s| < 2 || s[0] != '[' || s[|s| - 1] != ']' then None else DecodeItems(s[1..|s| - 1])
  }

  predicate QuoteFree(items: seq<string>)
  {
    forall i :: 0 <= i < |items| ==> '"' !in items[i]
  }

  /** One step of the decoder: a quoted quote-free item is read back, and the scan resumes after it. */
  lemma DecodeStep(x: string, tail: string)
    requires '"' !in x
    ensures var s := Quote(x) + tail;
      && s != [] && s[0] == '"'
      && IndexOf(s[1..], '"') == |x|
      && s[1..1 + |x|] == x
      && s[2 + |x|..] == tail
  {
    var s := Quote(x) + tail;
    assert s[1..] == x + "\"" + tail;
    assert (x + "\"" + tail)[..|x|] == x;
    IndexOfPrefix(s[1..], '"', |x|);
  }

  /** The decoder on a quoted quote-free item followed by more items. */
  lemma DecodeCons(x: string, rest: string)
    requires '"' !in x && rest != []
    ensures DecodeItems(Quote(x) + "," + rest) ==
      match DecodeItems(rest)
        case None => None
        case Some(items) => Some([x] + items)
  {
    var tail := "," + rest;
    assert Quote(x) + "," + rest == Quote(x) + tail;
    DecodeStep(x, tail);
    assert tail[1..] == rest;
  }

  lemma DecodeOne(x: string)
    requires '"' !in x
    ensures DecodeItems(Quote(x)) == Some([x])
  {
    assert Quote(x) == Quote(x) + "";
    DecodeStep(x, "");
  }

  lemma QuoteFreeTail(items: seq<string>)
    requires items != [] && QuoteFree(items)
    ensures QuoteFree(items[1..]) && '"' !in items[0]
  {
    forall i | 0 <= i < |items| - 1 ensures '"' !in items[1..][i] {
      assert items[1..][i] == items[i + 1];
    }
  }

  lemma {:induction false} DecodeItemsOfItems(items: seq<string>)
    requires QuoteFree(items)
    ensures DecodeItems(Items(items)) == Some(items)
  {
    if items == [] {
      return;
    }
    QuoteFreeTail(items);
    var x, rest := items[0], items[1..];
    assert items == [x] + rest;
    if rest == [] {
      DecodeOne(x);
      assert items == [x];
      assert Items(items) == Quote(x);
    } else {
      DecodeItemsOfItems(rest);
      DecodeCons(x, Items(rest));
      assert Items(items) == Quote(x) + "," + Items(rest);
    }
  }

  /** Items without a double quote come back intact from the rendered array. */
  lemma DecodeRender(items: seq<string>)
    requires QuoteFree(items)
    ensures Decode(Render(items)) == Some(items)
  {
    var s := Render(items);
    assert s[1..|s| - 1] == Items(items);
    DecodeItemsOfItems(items);
  }

  /** Without escaping, one item holding `","` renders exactly like two items. */
  lemma RenderIsAmbiguous()
    ensures Render(["a\",\"b"]) == Render(["a", "b"])
    ensures ["a\",\"b"] != ["a", "b"]
  {
    assert Items(["a", "b"]) == Quote("a") + "," + Items(["b"]);
  }

  /** What the loop of `handleGet` has built after `i` entries, the separator included. */
  function Rendered(items: seq<string>, i: nat): string
    requires i <= |items|
  {
    Items(items[..i]) + (if 0 < i < |items| then "," else "")
  }

  lemma RenderedStep(items: seq<string>, i: nat)
    requires i < |items|
    ensures Rendered(items, i + 1) ==
      Rendered(items, i) + "\"" + items[i] + "\"" + (if i < |items| - 1 then "," else "")
  {
    assert items[..i + 1] == items[..i] + [items[i]];
    if i > 0 {
      ItemsSnoc(items[..i], items[i]);
    }
  }

  class Server {
    var todoList: seq<string>

    constructor ()
      ensures todoList == []
    {
      todoList := [];
    }

    /** `handleGet`: the StringBuilder loop that renders the list; the list is untouched. */
    method HandleGet() returns (o: Outcome, response: string)
      ensures o == Status(OK)
      ensures response == Render(todoList)
    {
      response := "[";
      var n := |todoList|;
      for i := 0 to n
        invariant response == "[" + Rendered(todoList, i)
      {
        RenderedStep(todoList, i);
        response := response + "\"" + todoList[i] + "\"";
        if i < n - 1 {
          response := response + ",";
        }
      }
      assert todoList[..n] == todoList;
      response := response + "]";
      o := Status(OK);
    }

    /** `handlePost`: the request body becomes the last entry. */
    method HandlePost(body: string) returns (o: Outcome)
      modifies this
      ensures o == Status(CREATED)
      ensures todoList == old(todoList) + [body]
    {
      todoList := todoList + [body];
      o := Status(CREATED);
    }

    /** `handleDelete`: remove the entry at index `id` when it exists; no special case for an empty list. */
    method HandleDelete(query: Option<string>) returns (o: Outcome)
      modifies this
      ensures o in {Status(OK), Status(BAD_REQUEST), Status(NOT_FOUND)}
      ensures DeleteAnswered(old(todoList), todoList, query, o)
    {
      var params := ParseQuery(query);
      if "id" !in params {
        return Status(BAD_REQUEST);
      }
      var parsed := ParseInt(params["id"]);
      if parsed.None? {
        return Status(BAD_REQUEST);
      }
      var id := parsed.value;
      if 0 <= id < |todoList| {
        todoList := todoList[..id] + todoList[id + 1..];
        o := Status(OK);
      } else {
        o := Status(NOT_FOUND);
      }
    }

    /** `handle`: GET, POST and DELETE reach their handlers; any other method is answered 405 and changes nothing. */
    method Handle(verb: string, body: string, query: Option<string>) returns (o: Outcome, response: string)
      modifies this
      ensures o in {Status(OK), Status(CREATED), Status(BAD_REQUEST), Status(NOT_FOUND), Status(METHOD_NOT_ALLOWED)}
      ensures verb != "GET" && verb != "POST" && verb != "DELETE" ==>
        o == Status(METHOD_NOT_ALLOWED) && todoList == old(todoList)
      ensures verb == "GET" ==> o == Status(OK) && response == Render(todoList) && todoList == old(todoList)
      ensures verb == "POST" ==> o == Status(CREATED) && todoList == old(todoList) + [body]
      ensures verb == "DELETE" ==> DeleteAnswered(old(todoList), todoList, query, o)
    {
      response := "";
      if verb == "GET" {
        o, response := HandleGet();
      } else if verb == "POST" {
        o := HandlePost(body);
      } else if verb == "DELETE" {
        o := HandleDelete(query);
      } else {
        o := Status(METHOD_NOT_ALLOWED);
      }
    }
  }

  /**
   * What `handleDelete` answers, taking the list from `before` to `after`:
   * 400 without a parsable `id` parameter, 404 for an index outside the list
   * (an empty list included), and 200 with that entry removed and the later
   * ones shifted down. Only 200 changes the list.
   */
  predicate DeleteAnswered(before: seq<string>, after: seq<string>, query: Option<string>, o: Outcome)
  {
    && (var id := Lookup(query, "id");
        && (id.None? ==> o == Status(BAD_REQUEST))
        && (id.Some? && ParseInt(id.value).None? ==> o == Status(BAD_REQUEST))
        && (id.Some? && ParseInt(id.value).Some? ==>
              var index := ParseInt(id.value).value;
              if 0 <= index < |before| then
                o == Status(OK) && after == before[..index] + before[index + 1..]
              else o == Status(NOT_FOUND)))
    && (o != Status(OK) ==> after == before)
  }
}
