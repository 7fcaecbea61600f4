/**
 * `TodosHandler`: an in-memory todo list behind `/todos`. POST appends,
 * PATCH replaces the entry whose index ends the path, DELETE removes the
 * entry whose index is the `id` query parameter.
 */
module TodosHandler {
  import opened Wrappers
  import opened JavaText
  import opened Query
  import opened Http

  class Handler {
    var todoList: seq<string>

    constructor ()
      ensures todoList == []
    {
      todoList := [];
    }

    /** `handlePost`: the request body becomes the last entry. */
    method HandlePost(body: string) returns (o: Outcome)
      modifies this
      ensures o == Status(CREATED)
      ensures todoList == old(todoList) + [body]
    {
      todoList := todoList + [body];
      o := Status(CREATED);
    }

    /**
     * `handlePatch` as written: the index after the last '/' is not checked
     * against the list size, so `todoList.get` throws for an index past the end.
     */
    method HandlePatch(path: string, body: string) returns (o: Outcome)
      modifies this
      ensures PatchAnswered(old(todoList), todoList, path, body, o)
    {
      if todoList == [] {
        return Status(BAD_REQUEST);
      }
      var parsed := ParseInt(TrailingSegment(path));
      if parsed.None? {
        return Status(BAD_REQUEST);
      }
      var todoId := parsed.value;
      if todoId < 0 {
        return Status(NOT_FOUND);
      }
      if todoId >= |todoList| {
        // IndexOutOfBoundsException from todoList.get, caught nowhere
        return Aborted;
      }
      todoList := todoList[todoId := body];
      o := Status(OK);
    }

    /** `handlePatch` with the index checked on both sides, as its 404 message intends. */
    method HandlePatchChecked(path: string, body: string) returns (o: Outcome)
      modifies this
      ensures o in {Status(OK), Status(BAD_REQUEST), Status(NOT_FOUND)}
      ensures o == Status(OK) <==>
        old(todoList) != [] && ParseInt(TrailingSegment(path)).Some?
        && 0 <= ParseInt(TrailingSegment(path)).value < |old(todoList)|
      ensures o == Status(OK) ==> todoList == old(todoList)[ParseInt(TrailingSegment(path)).value := body]
      ensures o == Status(NOT_FOUND) <==>
        old(todoList) != [] && ParseInt(TrailingSegment(path)).Some?
        && !(0 <= ParseInt(TrailingSegment(path)).value < |old(todoList)|)
      ensures o != Status(OK) ==> todoList == old(todoList)
    {
      if todoList == [] {
        return Status(BAD_REQUEST);
      }
      var parsed := ParseInt(TrailingSegment(path));
      if parsed.None? {
        return Status(BAD_REQUEST);
      }
      var todoId := parsed.value;
      if todoId < 0 || todoId >= |todoList| {
        return Status(NOT_FOUND);
      }
      todoList := todoList[todoId := body];
      o := Status(OK);
    }

    /**
     * `handleDelete`: on an empty list answer 200 (with body "[]"); otherwise
     * remove the entry at index `id` when it exists, shifting the later ones down.
     */
    method HandleDelete(query: Option<string>) returns (o: Outcome)
      modifies this
      ensures o in {Status(OK), Status(BAD_REQUEST), Status(NOT_FOUND)}
      ensures DeleteAnswered(old(todoList), todoList, query, o)
    {
      if todoList == [] {
        return Status(OK);
      }
      var params := ParseQuery(query);
      if "id" !in params {
        return Status(BAD_REQUEST);
      }
      var parsed := ParseInt(params["id"]);
      if parsed.None? {
        return Status(BAD_REQUEST);
      }
      var id := parsed.value;
      if 0 <= id < |todoList| {
        todoList := todoList[..id] + todoList[id + 1..];
        o := Status(OK);
      } else {
        o := Status(NOT_FOUND);
      }
    }

    /**
     * `handle`: GET answers 200 with the list unchanged, POST, PATCH and
     * DELETE reach their handlers (PATCH as written, so it can throw), any
     * other method answers 405 and changes nothing.
     */
    method Handle(verb: string, path: string, body: string, query: Option<string>) returns (o: Outcome)
      modifies this
      ensures verb != "PATCH" ==> o != Aborted
      ensures verb != "POST" && verb != "PATCH" && verb != "DELETE" ==> todoList == old(todoList)
      ensures verb == "GET" ==> o == Status(OK)
      ensures verb != "GET" && verb != "POST" && verb != "PATCH" && verb != "DELETE" ==> o == Status(METHOD_NOT_ALLOWED)
      ensures verb == "POST" ==> o == Status(CREATED) && todoList == old(todoList) + [body]
      ensures verb == "PATCH" ==> PatchAnswered(old(todoList), todoList, path, body, o)
      ensures verb == "DELETE" ==> DeleteAnswered(old(todoList), todoList, query, o)
    {
      if verb == "GET" {
        o := Status(OK);
      } else if verb == "POST" {
        o := HandlePost(body);
      } else if verb == "PATCH" {
        o := HandlePatch(path, body);
      } else if verb == "DELETE" {
        o := HandleDelete(query);
      } else {
        o := Status(METHOD_NOT_ALLOWED);
      }
    }
  }

  /**
   * What `handlePatch` as written answers, taking the list from `before` to
   * `after`: 400 on an empty list or an index that does not parse, 404 on a
   * negative index, an uncaught exception past the end, and otherwise 200
   * with the entry at the index replaced by the body. Only 200 changes the list.
   */
  predicate PatchAnswered(before: seq<string>, after: seq<string>, path: string, body: string, o: Outcome)
  {
    && (before == [] ==> o == Status(BAD_REQUEST))
    && (before != [] && ParseInt(TrailingSegment(path)).None? ==> o == Status(BAD_REQUEST))
    && (before != [] && ParseInt(TrailingSegment(path)).Some? ==>
          var id := ParseInt(TrailingSegment(path)).value;
          && (id < 0 ==> o == Status(NOT_FOUND))
          && (id >= |before| ==> o == Aborted)
          && (0 <= id < |before| ==> o == Status(OK) && after == before[id := body]))
    && (o != Status(OK) ==> after == before)
  }

  /**
   * What `handleDelete` answers, taking the list from `before` to `after`:
   * 200 on an empty list; otherwise 400 without a parsable `id` parameter,
   * 404 for an index outside the list, and 200 with that entry removed and
   * the later ones shifted down. Only a 200 on a non-empty list changes it.
   */
  predicate DeleteAnswered(before: seq<string>, after: seq<string>, query: Option<string>, o: Outcome)
  {
    && (before == [] ==> o == Status(OK) && after == [])
    && (before != [] ==>
          var id := Lookup(query, "id");
          && (id.None? ==> o == Status(BAD_REQUEST))
          && (id.Some? && ParseInt(id.value).None? ==> o == Status(BAD_REQUEST))
          && (id.Some? && ParseInt(id.value).Some? ==>
                var index := ParseInt(id.value).value;
                if 0 <= index < |before| then
                  o == Status(OK) && after == before[..index] + before[index + 1..]
                else o == Status(NOT_FOUND)))
    && (o != Status(OK) || before == [] ==> after == before)
  }

  /** The index past the end of a one-entry list makes the as-written PATCH throw. */
  method PatchPastEndAborts() returns (asWritten: Outcome, checked: Outcome)
    ensures asWritten == Aborted && checked == Status(NOT_FOUND)
  {
    var handler := new Handler();
    var created := handler.HandlePost("a");
    assert TrailingSegment("/todos/1") == "1";
    assert ParseInt("1") == Some(1);
    asWritten := handler.HandlePatch("/todos/1", "b");
    checked := handler.HandlePatchChecked("/todos/1", "b");
  }
}
