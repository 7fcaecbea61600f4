/**
 * The URL query-string parser `parseQuery`, written identically in
 * TodosHandler, TodoListHttpServer and TodoController: split on '&', split
 * each piece on '=', keep the pieces that split into exactly two parts, and
 * let a later key overwrite an earlier one.
 */
module Query {
  import opened Wrappers
  import opened JavaText

  /** The key and value of one piece, when `piece.split("=")` has exactly two parts. */
  function PairOf(piece: string): (r: Option<(string, string)>)
    ensures r.Some? <==> |Split(piece, '=')| == 2
    ensures r.Some? ==> Split(piece, '=') == [r.value.0, r.value.1]
  {
    var kv := Split(piece, '=');
    if |kv| == 2 then Some((kv[0], kv[1])) else None
  }

  /** The keys of the pieces that split into exactly two parts. */
  function KeysOf(pieces: seq<string>): set<string>
  {
    if pieces == [] then {}
    else
      var last := PairOf(pieces[|pieces| - 1]);
      KeysOf(pieces[..|pieces| - 1]) + if last.Some? then {last.value.0} else {}
  }

  /** The map `parseQuery` builds from the pieces of a query, in order. */
  function Params(pieces: seq<string>): (r: map<string, string>)
    ensures r.Keys == KeysOf(pieces)
  {
    if pieces == [] then map[]
    else
      var m := Params(pieces[..|pieces| - 1]);
      match PairOf(pieces[|pieces| - 1])
      case Some((k, v)) => m[k := v]
      case None => m
  }

  /**
   * `parseQuery(query).get(key)`, with `None` for a `null` query or an absent
   * key: a value exactly when some kept piece carries the key, and then the
   * value of the last such piece.
   */
  function Lookup(query: Option<string>, key: string): (r: Option<string>)
    ensures query.None? ==> r == None
    ensures query.Some? ==> (r.Some? <==> exists i :: Carries(Split(query.value, '&'), i, key))
    ensures r.Some? ==> exists i :: LastBindingAt(Split(query.value, '&'), i, key, r.value)
  {
    if query.None? then None
    else
      var pieces := Split(query.value, '&');
      var params := Params(pieces);
      ParamsHasKey(pieces, key);
      if key in params then
        ParamsBindingIsLast(pieces, key);
        Some(params[key])
      else None
  }

  /** Piece `i` splits into a pair whose key is `k`. */
  predicate Carries(pieces: seq<string>, i: int, k: string)
  {
    0 <= i < |pieces| && PairOf(pieces[i]).Some? && PairOf(pieces[i]).value.0 == k
  }

  /** Piece `i` binds `k` to `v`, and no later piece carries `k`. */
  ghost predicate LastBindingAt(pieces: seq<string>, i: int, k: string, v: string)
  {
    && 0 <= i < |pieces|
    && PairOf(pieces[i]) == Some((k, v))
    && forall j :: i < j < |pieces| ==> !Carries(pieces, j, k)
  }

  /** `parseQuery(query)`, with `None` standing for a `null` query. */
  method ParseQuery(query: Option<string>) returns (params: map<string, string>)
    ensures query.None? ==> params == map[]
    ensures query.Some? ==> params == Params(Split(query.value, '&'))
  {
    params := map[];
    if query.None? {
      return;
    }
    var pairs := Split(query.value, '&');
    for i := 0 to |pairs|
      invariant params == Params(pairs[..i])
    {
      ParamsStep(pairs, i);
      var keyValue := Split(pairs[i], '=');
      if |keyValue| == 2 {
        params := params[keyValue[0] := keyValue[1]];
      }
    }
    assert pairs[..|pairs|] == pairs;
  }

  /** Extending the pieces by one applies that piece's pair, if it has one. */
  lemma ParamsStep(pieces: seq<string>, i: nat)
    requires i < |pieces|
    ensures var kv := Split(pieces[i], '=');
      Params(pieces[..i + 1]) ==
        if |kv| == 2 then Params(pieces[..i])[kv[0] := kv[1]] else Params(pieces[..i])
  {
    assert pieces[..i + 1][..i] == pieces[..i];
  }

  /** A key is present exactly when some kept piece carries it. */
  lemma {:induction false} ParamsHasKey(pieces: seq<string>, k: string)
    ensures k in Params(pieces) <==> exists i :: Carries(pieces, i, k)
  {
    if pieces != [] {
      var n := |pieces| - 1;
      var init := pieces[..n];
      ParamsHasKey(init, k);
      CarriesSnoc(pieces, init, k);
      var last := PairOf(pieces[n]);
      assert Params(pieces).Keys == Params(init).Keys + if last.Some? then {last.value.0} else {};
    }
  }

  lemma CarriesSnoc(pieces: seq<string>, init: seq<string>, k: string)
    requires pieces != [] && init == pieces[..|pieces| - 1]
    ensures (exists i :: Carries(pieces, i, k)) <==>
      (exists i :: Carries(init, i, k)) || Carries(pieces, |pieces| - 1, k)
  {
    var n := |pieces| - 1;
    if exists i :: Carries(init, i, k) {
      var i :| Carries(init, i, k);
      assert pieces[i] == init[i];
      assert Carries(pieces, i, k);
    }
    if exists i :: Carries(pieces, i, k) {
      var i :| Carries(pieces, i, k);
      if i < n {
        assert init[i] == pieces[i];
        assert Carries(init, i, k);
      }
    }
  }

  /** The value bound to a key is the one from the last piece that carries it. */
  lemma {:induction false} ParamsLastWins(pieces: seq<string>, i: nat, k: string, v: string)
    requires LastBindingAt(pieces, i, k, v)
    ensures k in Params(pieces) && Params(pieces)[k] == v
  {
    var n := |pieces| - 1;
    if i < n {
      LastBindingInit(pieces, i, k, v);
      ParamsLastWins(pieces[..n], i, k, v);
      ParamsSnocOther(pieces, k);
    } else {
      assert Params(pieces) == Params(pieces[..n])[k := v];
    }
  }

  /** A binding that is not the final piece is also the last one among the earlier pieces. */
  lemma LastBindingInit(pieces: seq<string>, i: nat, k: string, v: string)
    requires LastBindingAt(pieces, i, k, v) && i < |pieces| - 1
    ensures LastBindingAt(pieces[..|pieces| - 1], i, k, v)
    ensures !Carries(pieces, |pieces| - 1, k)
  {
    var init := pieces[..|pieces| - 1];
    assert init[i] == pieces[i];
    forall j | i < j < |init|
      ensures !Carries(init, j, k)
    {
      assert init[j] == pieces[j];
      assert !Carries(pieces, j, k);
    }
  }

  /** A last piece that does not bind `k` leaves the binding of `k` alone. */
  lemma ParamsSnocOther(pieces: seq<string>, k: string)
    requires pieces != [] && k in Params(pieces[..|pieces| - 1])
    requires !Carries(pieces, |pieces| - 1, k)
    ensures k in Params(pieces) && Params(pieces)[k] == Params(pieces[..|pieces| - 1])[k]
  {
    var m := Params(pieces[..|pieces| - 1]);
    match PairOf(pieces[|pieces| - 1]) {
      case None =>
        assert Params(pieces) == m;
      case Some((k', v')) =>
        assert Params(pieces) == m[k' := v'];
    }
  }

  /** Whatever a key is bound to comes from the last piece that carries it. */
  lemma {:induction false} ParamsBindingIsLast(pieces: seq<string>, k: string)
    requires k in Params(pieces)
    ensures exists i :: LastBindingAt(pieces, i, k, Params(pieces)[k])
  {
    var n := |pieces| - 1;
    var init := pieces[..n];
    if Carries(pieces, n, k) {
      assert Params(pieces) == Params(init)[k := PairOf(pieces[n]).value.1];
      assert LastBindingAt(pieces, n, k, Params(pieces)[k]);
    } else {
      assert k in Params(init) by {
        match PairOf(pieces[n]) {
          case None => assert Params(pieces) == Params(init);
          case Some((k', v')) => assert Params(pieces) == Params(init)[k' := v'];
        }
      }
      ParamsBindingIsLast(init, k);
      ParamsSnocOther(pieces, k);
      var i :| LastBindingAt(init, i, k, Params(init)[k]);
      forall j | i < j < |pieces|
        ensures !Carries(pieces, j, k)
      {
        if j < n {
          assert init[j] == pieces[j];
          assert !Carries(init, j, k);
        }
      }
      assert pieces[i] == init[i];
      assert LastBindingAt(pieces, i, k, Params(pieces)[k]);
    }
  }

  // ---------------------------------------------------------------------
  // Encoding a list of pairs, the inverse direction

  /** A pair that `parseQuery` can carry: no separators inside, and a non-empty value. */
  predicate WellFormedPair(kv: (string, string))
  {
    '&' !in kv.0 && '=' !in kv.0 && '&' !in kv.1 && '=' !in kv.1 && kv.1 != ""
  }

  function Piece(kv: (string, string)): string
  {
    kv.0 + "=" + kv.1
  }

  function Pieces(kvs: seq<(string, string)>): (r: seq<string>)
    ensures |r| == |kvs|
    ensures forall i :: 0 <= i < |kvs| ==> r[i] == Piece(kvs[i])
  {
    if kvs == [] then [] else Pieces(kvs[..|kvs| - 1]) + [Piece(kvs[|kvs| - 1])]
  }

  /** `k1=v1&k2=v2&...`. */
  function Encode(kvs: seq<(string, string)>): string
  {
    Join(Pieces(kvs), '&')
  }

  /** The map a client means by a list of pairs: later pairs overwrite earlier ones. */
  function ToMap(kvs: seq<(string, string)>): map<string, string>
  {
    if kvs == [] then map[] else ToMap(kvs[..|kvs| - 1])[kvs[|kvs| - 1].0 := kvs[|kvs| - 1].1]
  }

  lemma PairOfPiece(kv: (string, string))
    requires WellFormedPair(kv)
    ensures PairOf(Piece(kv)) == Some(kv)
  {
    assert Join([kv.0, kv.1], '=') == Piece(kv);
    SplitJoin([kv.0, kv.1], '=');
  }

  lemma {:induction false} ParamsOfPieces(kvs: seq<(string, string)>)
    requires forall i :: 0 <= i < |kvs| ==> WellFormedPair(kvs[i])
    ensures Params(Pieces(kvs)) == ToMap(kvs)
  {
    if kvs != [] {
      var n := |kvs| - 1;
      assert Pieces(kvs)[..n] == Pieces(kvs[..n]);
      ParamsOfPieces(kvs[..n]);
      PairOfPiece(kvs[n]);
    }
  }

  /** Parsing an encoded list of well-formed pairs gives back the map they denote. */
  lemma ParseQueryOfEncode(kvs: seq<(string, string)>)
    requires forall i :: 0 <= i < |kvs| ==> WellFormedPair(kvs[i])
    ensures Params(Split(Encode(kvs), '&')) == ToMap(kvs)
  {
    var pieces := Pieces(kvs);
    if kvs == [] {
      assert Split("", '&') == [""];
      assert Split("", '=') == [""];
      assert Params([""]) == map[];
    } else {
      forall i | 0 <= i < |pieces| ensures '&' !in pieces[i] {
        assert pieces[i] == kvs[i].0 + "=" + kvs[i].1;
      }
      assert pieces[|pieces| - 1][|kvs[|kvs| - 1].0|] == '=';
      SplitJoin(pieces, '&');
      ParamsOfPieces(kvs);
    }
  }

  /** A piece with nothing after its '=' (`k=`) is dropped, as Java discards the trailing empty part. */
  lemma EmptyValueDropped(k: string)
    requires '=' !in k
    ensures PairOf(k + "=") == None
  {
    var s := k + "=";
    assert s[|k|] == '=';
    IndexOfPrefix(s, '=', |k|);
    assert s[|k| + 1..] == "";
    assert SplitAll(s, '=') == [k, ""];
  }

  /** A piece with an empty key (`=v`) is kept under the key "". */
  lemma EmptyKeyKept(v: string)
    requires '=' !in v && '&' !in v && v != ""
    ensures PairOf("=" + v) == Some(("", v))
  {
    PairOfPiece(("", v));
    assert Piece(("", v)) == "=" + v;
  }
}
