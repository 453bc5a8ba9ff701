/**
 Request routing: `service_handler` (src/main.rs:47-116) and the map-building
 part of `parse_query_params` (src/main.rs:35-45).

 A request is its method, its path and its already-decoded query pairs; URL
 parsing and percent-decoding belong to the `url` crate and are left out. The
 random session id of `/staging` is a parameter. Where the source calls
 `unwrap()` on a missing query parameter, the handler panics; the model returns
 `Panicked` naming that parameter instead.
 */
module Routing {
  import opened Wrappers
  import opened Numbers
  import opened Text
  import opened StateMap
  import opened LongPoll

  /** The request method as the router sees it: GET, or any other method. */
  datatype Method = Get | OtherMethod

  datatype Request = Request(verb: Method, path: string, query: seq<(string, string)>)

  datatype Response = Response(status: nat, body: string)

  /** What the handler does with a request: answer it, leave it pending, or panic on a missing parameter. */
  datatype Outcome = Respond(response: Response) | Suspended | Panicked(missing: string)

  datatype Handled = Handled(outcome: Outcome, server: Server, woken: seq<TaskId>)

  const OK: nat := 200
  const NOT_FOUND: nat := 404
  const INTERNAL_SERVER_ERROR: nat := 500

  const StagingError: string := "Missing <b>len</b> parameter on staging."
  const CallbackReply: string := "Successfully added new token state"

  /** `parse_query_params`: the pairs inserted into a map in order, so the last pair for a key wins. */
  function ParseQueryParams(pairs: seq<(string, string)>): (r: map<string, string>)
    ensures forall k :: k in r <==> LastValue(pairs, k).Some?
    ensures forall k :: k in r ==> LastValue(pairs, k) == Some(r[k])
  {
    var m := InsertAll(map[], pairs);
    assert forall k :: GetToken(m, k) == LastValue(pairs, k) by {
      forall k ensures GetToken(m, k) == LastValue(pairs, k) {
        InsertAllLastWins(map[], pairs, k);
      }
    }
    m
  }

  /** One line of the staging payload. */
  function ImportLine(url: string): string {
    "@import url(" + url + ");\n"
  }

  /** The lines of the staging payload for session `id`: one per probe index `0 .. len - 1`, in order. */
  function StagingLines(cfg: Config, id: string, len: u32): seq<string> {
    seq(len, i requires 0 <= i < len => ImportLine(cfg.pollingUrl(cfg.pollingHost, id, i)))
  }

  /** The loop of the `/staging` branch that appends one `@import` line per probe index. */
  method StagingPayload(cfg: Config, id: string, len: u32) returns (payload: string)
    ensures payload == Concat(StagingLines(cfg, id, len))
  {
    payload := "";
    var i: u32 := 0;
    ghost var lines := StagingLines(cfg, id, len);
    while i < len
      invariant 0 <= i <= len
      invariant payload == Concat(lines[..i])
    {
      payload := payload + "@import url(" + cfg.pollingUrl(cfg.pollingHost, id, i) + ");\n";
      assert lines[..i + 1][..i] == lines[..i];
      i := i + 1;
    }
    assert lines[..len] == lines;
  }

  /** `service_handler` for one request. `freshId` is the random id `/staging` mints; `task` is the polling task. */
  function Handle(s: Server, cfg: Config, req: Request, freshId: u32, task: TaskId): (r: Handled)
    ensures req.verb != Get || req.path !in {"/staging", "/polling", "/callback"} ==>
      r == Handled(Respond(Response(NOT_FOUND, "")), s, [])
    ensures r.server.registry != s.registry ==> req.verb == Get && req.path == "/callback"
    ensures s.queue <= r.server.queue
  {
    var params := ParseQueryParams(req.query);
    if req.verb == Get && req.path == "/staging" then
      if "len" !in params then Handled(Panicked("len"), s, [])
      else match ParseU32(params["len"])
        case None => Handled(Respond(Response(INTERNAL_SERVER_ERROR, StagingError)), s, [])
        case Some(len) => Handled(Respond(Response(OK, Concat(StagingLines(cfg, DecimalString(freshId), len)))), s, [])
    else if req.verb == Get && req.path == "/polling" then
      if "id" !in params then Handled(Panicked("id"), s, [])
      else if "len" !in params then Handled(Panicked("len"), s, [])
      else match ParseU32(params["len"])
        case None => Handled(Panicked("len"), s, [])
        case Some(len) =>
          var p := Poll(s, cfg, params["id"], len, task);
          match p.status
          case Ready(body) => Handled(Respond(Response(OK, body)), p.server, [])
          case NotReady => Handled(Suspended, p.server, [])
    else if req.verb == Get && req.path == "/callback" then
      if "id" !in params then Handled(Panicked("id"), s, [])
      else if "token" !in params then Handled(Panicked("token"), s, [])
      else
        var n := Callback(s, params["id"], params["token"]);
        Handled(Respond(Response(OK, CallbackReply)), n.server, n.woken)
    else Handled(Respond(Response(NOT_FOUND, "")), s, [])
  }

  /**
   Splits text into lines, each ending in a line feed except possibly the
   last; the inverse of joining such lines.
   */
  function SplitLines(t: string): seq<string>
    decreases |t|
  {
    if |t| == 0 then []
    else
      var rest := SplitLines(t[1..]);
      if t[0] == '\n' || |rest| == 0 then [[t[0]]] + rest
      else [[t[0]] + rest[0]] + rest[1..]
  }

  /** A line that ends in its only line feed. */
  predicate IsLine(l: string) {
    |l| > 0 && l[|l| - 1] == '\n' && forall i :: 0 <= i < |l| - 1 ==> l[i] != '\n'
  }

  lemma {:induction false} SplitLinesFront(l: string, u: string)
    requires IsLine(l)
    ensures SplitLines(l + u) == [l] + SplitLines(u)
    decreases |l|
  {
    var t := l + u;
    if |l| == 1 {
      assert t[0] == '\n' && l == [t[0]];
      assert t[1..] == u;
    } else {
      assert t[0] == l[0] && l[0] != '\n';
      assert t[1..] == l[1..] + u;
      assert IsLine(l[1..]);
      SplitLinesFront(l[1..], u);
      assert [l[0]] + l[1..] == l;
    }
  }

  lemma {:induction false} ConcatFront(ls: seq<string>)
    requires |ls| > 0
    ensures Concat(ls) == ls[0] + Concat(ls[1..])
    decreases |ls|
  {
    if |ls| > 1 {
      ConcatFront(ls[..|ls| - 1]);
      assert ls[..|ls| - 1][1..] == ls[1..][..|ls[1..]| - 1];
    }
  }

  /** Joined lines split back into the same lines. */
  lemma {:induction false} SplitConcat(ls: seq<string>)
    requires forall i :: 0 <= i < |ls| ==> IsLine(ls[i])
    ensures SplitLines(Concat(ls)) == ls
    decreases |ls|
  {
    if |ls| > 0 {
      ConcatFront(ls);
      SplitConcat(ls[1..]);
      SplitLinesFront(ls[0], Concat(ls[1..]));
    }
  }

  /**
   GET `/staging` with a `len` that parses as a `u32`: the body is exactly
   `len` lines, line `i` importing the polling URL of probe index `i` for the
   minted id, provided no polling URL contains a line feed.
   */
  lemma StagingResponse(s: Server, cfg: Config, req: Request, freshId: u32, task: TaskId, raw: string, len: u32)
    requires req.verb == Get && req.path == "/staging"
    requires LastValue(req.query, "len") == Some(raw) && ParseU32(raw) == Some(len)
    requires forall i: u32 :: '\n' !in cfg.pollingUrl(cfg.pollingHost, DecimalString(freshId), i)
    ensures Handle(s, cfg, req, freshId, task).server == s
    ensures Handle(s, cfg, req, freshId, task).outcome.Respond?
    ensures Handle(s, cfg, req, freshId, task).outcome.response.status == OK
    ensures |SplitLines(Handle(s, cfg, req, freshId, task).outcome.response.body)| == len
    ensures forall i: u32 :: i < len ==>
      SplitLines(Handle(s, cfg, req, freshId, task).outcome.response.body)[i]
        == "@import url(" + cfg.pollingUrl(cfg.pollingHost, DecimalString(freshId), i) + ");\n"
  {
    var ls := StagingLines(cfg, DecimalString(freshId), len);
    forall i | 0 <= i < |ls| ensures IsLine(ls[i]) {
      var url := cfg.pollingUrl(cfg.pollingHost, DecimalString(freshId), i);
      assert ls[i] == "@import url(" + url + ");\n";
      forall j | 0 <= j < |ls[i]| - 1 ensures ls[i][j] != '\n' {
        if 12 <= j < 12 + |url| {
          assert ls[i][j] == url[j - 12];
        }
      }
    }
    SplitConcat(ls);
  }

  /** GET `/staging` with a `len` that does not parse as a `u32` answers 500 with the error text. */
  lemma StagingBadLength(s: Server, cfg: Config, req: Request, freshId: u32, task: TaskId, raw: string)
    requires req.verb == Get && req.path == "/staging"
    requires LastValue(req.query, "len") == Some(raw) && ParseU32(raw) == None
    ensures Handle(s, cfg, req, freshId, task) == Handled(Respond(Response(INTERNAL_SERVER_ERROR, StagingError)), s, [])
    ensures Contains(StagingError, "len")
  {
    assert StagingError[11] == 'l' && StagingError[12] == 'e' && StagingError[13] == 'n';
    assert StagingError[11..14] == "len";
    assert OccursAt(StagingError, "len", 11);
  }

  /** Missing required parameters end every route in the panic that names the first one missing. */
  lemma MissingParameters(s: Server, cfg: Config, req: Request, freshId: u32, task: TaskId)
    requires req.verb == Get
    ensures req.path == "/staging" && LastValue(req.query, "len") == None ==>
      Handle(s, cfg, req, freshId, task).outcome == Panicked("len")
    ensures req.path == "/polling" && LastValue(req.query, "id") == None ==>
      Handle(s, cfg, req, freshId, task).outcome == Panicked("id")
    ensures req.path == "/polling" && LastValue(req.query, "id").Some? && LastValue(req.query, "len") == None ==>
      Handle(s, cfg, req, freshId, task).outcome == Panicked("len")
    ensures req.path == "/polling" && LastValue(req.query, "id").Some? && LastValue(req.query, "len").Some? &&
            ParseU32(LastValue(req.query, "len").value) == None ==>
      Handle(s, cfg, req, freshId, task).outcome == Panicked("len")
    ensures req.path == "/callback" && LastValue(req.query, "id") == None ==>
      Handle(s, cfg, req, freshId, task).outcome == Panicked("id")
    ensures req.path == "/callback" && LastValue(req.query, "id").Some? && LastValue(req.query, "token") == None ==>
      Handle(s, cfg, req, freshId, task).outcome == Panicked("token")
  {
  }

  /**
   A callback followed by a poll on the same id: once the callback has stored
   a token of at least `len` bytes, the poll answers at once with the payload
   rendered from that token, one fragment per charset character.
   */
  lemma CallbackThenPoll(s: Server, cfg: Config, id: string, token: string, len: u32, freshId: u32, task: TaskId)
    requires AsU32(Utf8Len(token)) >= len
    ensures
      var cb := Handle(s, cfg, Request(Get, "/callback", [("id", id), ("token", token)]), freshId, task);
      var poll := Handle(cb.server, cfg, Request(Get, "/polling", [("id", id), ("len", DecimalString(len))]), freshId, task);
      && cb.outcome == Respond(Response(OK, CallbackReply))
      && cb.woken == s.queue
      && poll.outcome == Respond(Response(OK, Template.Render(cfg.template, cfg.callbackUrl, cfg.callbackHost, id, cfg.charset, token)))
      && |Template.Fragments(cfg.template, cfg.callbackUrl, cfg.callbackHost, id, cfg.charset, token)| == |cfg.charset|
  {
    var q1 := [("id", id), ("token", token)];
    var q2 := [("id", id), ("len", DecimalString(len))];
    assert LastValue(q1, "id") == Some(id) by {
      assert q1[..1] == [("id", id)];
    }
    assert LastValue(q2, "len") == Some(DecimalString(len));
    assert LastValue(q2, "id") == Some(id) by {
      assert q2[..1] == [("id", id)];
    }
    var cb := Handle(s, cfg, Request(Get, "/callback", q1), freshId, task);
    assert cb.server.registry == s.registry[id := token];
    DecimalRoundTrip(len);
    var p2 := ParseQueryParams(q2);
    assert p2["id"] == id && p2["len"] == DecimalString(len);
    assert ParseU32(p2["len"]) == Some(len);
  }
}
