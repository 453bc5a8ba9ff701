/**
 The long poll: `GeneratedCssFuture::poll` (src/main.rs:118-144) and the
 callback branch of `service_handler` (src/main.rs:91-107), taken one step at
 a time.

 A poll reads the token for its id (absent reads as the empty string) and is
 Ready with the rendered payload once the token's UTF-8 length, cast to `u32`,
 reaches the requested length; otherwise it appends its task to the back of
 the wait queue. A callback replaces the token for its id and then notifies
 every queued task, removing none. Tasks are opaque ids and notification is
 the sequence of tasks woken; interleavings are not modelled.
 */
module LongPoll {
  import opened Wrappers
  import opened Numbers
  import opened Template
  import opened StateMap

  /** Rust's `Async`: the response is ready with this body, or not yet. */
  datatype Async = Ready(body: string) | NotReady

  datatype Polled = Polled(status: Async, server: Server)

  datatype Notified = Notified(server: Server, woken: seq<TaskId>)

  /** The token a poll sees: the stored one, or the empty string when none is stored. */
  function CurrentToken(reg: Registry, id: string): string {
    GetToken(reg, id).GetOr("")
  }

  /** The check of `poll`: `current_token.len() as u32 >= self.len`. */
  predicate LongEnough(reg: Registry, id: string, len: u32) {
    AsU32(Utf8Len(CurrentToken(reg, id))) >= len
  }

  /** One call of `GeneratedCssFuture::poll` for task `task` waiting on `id` to reach `len`. */
  function Poll(s: Server, cfg: Config, id: string, len: u32, task: TaskId): (r: Polled)
    ensures r.server.registry == s.registry
    ensures r.status.Ready? <==> LongEnough(s.registry, id, len)
    ensures len == 0 ==> r.status.Ready?
    ensures r.status.Ready? ==> r.server == s
    ensures r.status.Ready? ==>
      r.status.body == Render(cfg.template, cfg.callbackUrl, cfg.callbackHost, id, cfg.charset, CurrentToken(s.registry, id))
    ensures r.status.NotReady? ==> r.server.queue == s.queue + [task]
    ensures |r.server.queue| >= |s.queue|
  {
    var currentToken := CurrentToken(s.registry, id);
    if AsU32(Utf8Len(currentToken)) >= len then
      Polled(Ready(Render(cfg.template, cfg.callbackUrl, cfg.callbackHost, id, cfg.charset, currentToken)), s)
    else
      Polled(NotReady, Server(s.registry, s.queue + [task]))
  }

  /**
   For an ASCII token (shorter than 2^32) the byte length is the character
   count, so a poll is Ready exactly when the token has at least `len` characters.
   */
  lemma PollAsciiToken(s: Server, cfg: Config, id: string, len: u32, task: TaskId)
    requires IsAscii(CurrentToken(s.registry, id))
    requires |CurrentToken(s.registry, id)| < U32_LIMIT
    ensures Poll(s, cfg, id, len, task).status.Ready? <==> |CurrentToken(s.registry, id)| >= len
  {
    Utf8LenBounds(CurrentToken(s.registry, id));
  }

  /** A poll on an id no callback has named is Ready only for length zero. */
  lemma PollUnknownId(s: Server, cfg: Config, id: string, len: u32, task: TaskId)
    requires id !in s.registry
    ensures Poll(s, cfg, id, len, task).status.Ready? <==> len == 0
    ensures Poll(s, cfg, id, len, task).status.Ready? ==>
      Poll(s, cfg, id, len, task).status.body == Render(cfg.template, cfg.callbackUrl, cfg.callbackHost, id, cfg.charset, "")
  {
    assert CurrentToken(s.registry, id) == "";
  }

  /** The callback branch: upsert the token, then notify every queued task. */
  function Callback(s: Server, id: string, token: string): (r: Notified)
    ensures GetToken(r.server.registry, id) == Some(token)
    ensures forall other :: other != id ==> GetToken(r.server.registry, other) == GetToken(s.registry, other)
    ensures r.server.queue == s.queue
    ensures r.woken == s.queue
  {
    var registry := InsertOrUpdate(s.registry, id, token);
    Notified(Server(registry, s.queue), s.queue)
  }

  /** A request the server receives: a poll by a task, or a callback. */
  datatype Event =
    | PollEvent(task: TaskId, id: string, len: u32)
    | CallbackEvent(id: string, token: string)

  function Step(s: Server, cfg: Config, e: Event): Server {
    match e
    case PollEvent(task, id, len) => Poll(s, cfg, id, len, task).server
    case CallbackEvent(id, token) => Callback(s, id, token).server
  }

  /** The events handled one after the other. */
  function Run(s: Server, cfg: Config, events: seq<Event>): Server
    decreases |events|
  {
    if |events| == 0 then s else Run(Step(s, cfg, events[0]), cfg, events[1..])
  }

  /** The (id, token) pairs of the callbacks among `events`, in order. */
  function Upserts(events: seq<Event>): seq<(string, string)>
    decreases |events|
  {
    if |events| == 0 then []
    else if events[0].CallbackEvent? then [(events[0].id, events[0].token)] + Upserts(events[1..])
    else Upserts(events[1..])
  }

  /** Only callbacks write the registry, and each writes exactly its own pair. */
  lemma {:induction false} RunRegistry(s: Server, cfg: Config, events: seq<Event>)
    ensures Run(s, cfg, events).registry == InsertAll(s.registry, Upserts(events))
    decreases |events|
  {
    if |events| > 0 {
      var e := events[0];
      RunRegistry(Step(s, cfg, e), cfg, events[1..]);
      if e.CallbackEvent? {
        var ups := Upserts(events);
        assert ups[0] == (e.id, e.token) && ups[1..] == Upserts(events[1..]);
      }
    }
  }

  /**
   The queue only grows: no step removes a task, so every task ever parked
   stays queued and is notified by every later callback.
   */
  lemma {:induction false} RunQueueGrows(s: Server, cfg: Config, events: seq<Event>)
    ensures s.queue <= Run(s, cfg, events).queue
    decreases |events|
  {
    if |events| > 0 {
      var next := Step(s, cfg, events[0]);
      assert s.queue <= next.queue;
      RunQueueGrows(next, cfg, events[1..]);
    }
  }

  /**
   A task that polls twice without the token growing is queued twice: the
   queue is never drained, so a handle can appear in it more than once.
   */
  lemma RepeatedParkDuplicates(s: Server, cfg: Config, id: string, len: u32, task: TaskId)
    requires !LongEnough(s.registry, id, len)
    ensures Poll(Poll(s, cfg, id, len, task).server, cfg, id, len, task).server.queue == s.queue + [task, task]
  {
    assert s.queue + [task] + [task] == s.queue + [task, task];
  }

  /** A parked poll: the task and what it waits for. */
  datatype Waiter = Waiter(task: TaskId, id: string, len: u32)

  /**
   Callbacks delivered to parked waiters that are all still unsatisfied: each
   waiter is notified, and on its next poll it is Ready exactly when the
   callback was for its id with a token long enough; the others stay parked.
   */
  lemma CallbackResolvesNewlySatisfied(s: Server, cfg: Config, id: string, token: string, ws: seq<Waiter>)
    requires forall i :: 0 <= i < |ws| ==> ws[i].task in s.queue && !LongEnough(s.registry, ws[i].id, ws[i].len)
    ensures forall i :: 0 <= i < |ws| ==> ws[i].task in Callback(s, id, token).woken
    ensures forall i :: 0 <= i < |ws| ==>
      (Poll(Callback(s, id, token).server, cfg, ws[i].id, ws[i].len, ws[i].task).status.Ready? <==>
         ws[i].id == id && AsU32(Utf8Len(token)) >= ws[i].len)
  {
    var n := Callback(s, id, token);
    forall i | 0 <= i < |ws|
      ensures LongEnough(n.server.registry, ws[i].id, ws[i].len) <==> ws[i].id == id && AsU32(Utf8Len(token)) >= ws[i].len
    {
      if ws[i].id != id {
        assert CurrentToken(n.server.registry, ws[i].id) == CurrentToken(s.registry, ws[i].id);
      }
    }
  }

  /**
   The life of one parked waiter as callbacks arrive one by one: a callback that
   notifies it makes it poll again at once; a Ready poll ends the wait. The
   result is the index of the callback after which it resolved.
   */
  function Follow(s: Server, cfg: Config, w: Waiter, callbacks: seq<(string, string)>): Option<nat>
    decreases |callbacks|
  {
    if |callbacks| == 0 then None
    else
      var n := Callback(s, callbacks[0].0, callbacks[0].1);
      if w.task in n.woken then
        var p := Poll(n.server, cfg, w.id, w.len, w.task);
        if p.status.Ready? then Some(0)
        else match Follow(p.server, cfg, w, callbacks[1..])
          case None => None
          case Some(j) => Some(j + 1)
      else match Follow(n.server, cfg, w, callbacks[1..])
        case None => None
        case Some(j) => Some(j + 1)
  }

  /** The index of the first callback for `id` with a token of at least `len` bytes. */
  function FirstSatisfying(callbacks: seq<(string, string)>, id: string, len: u32): Option<nat>
    decreases |callbacks|
  {
    if |callbacks| == 0 then None
    else if callbacks[0].0 == id && AsU32(Utf8Len(callbacks[0].1)) >= len then Some(0)
    else match FirstSatisfying(callbacks[1..], id, len)
      case None => None
      case Some(j) => Some(j + 1)
  }

  /**
   In this sequential model no wake-up is lost: a parked waiter resolves, without a second request,
   right after the first callback that stores a long enough token for its id,
   and never if there is none.
   */
  lemma {:induction false} FollowResolvesAtFirstSatisfying(s: Server, cfg: Config, w: Waiter, callbacks: seq<(string, string)>)
    requires w.task in s.queue
    requires !LongEnough(s.registry, w.id, w.len)
    ensures Follow(s, cfg, w, callbacks) == FirstSatisfying(callbacks, w.id, w.len)
    decreases |callbacks|
  {
    if |callbacks| > 0 {
      var (id, token) := callbacks[0];
      var n := Callback(s, id, token);
      assert w.task in n.woken;
      CallbackResolvesNewlySatisfied(s, cfg, id, token, [w]);
      var p := Poll(n.server, cfg, w.id, w.len, w.task);
      if !p.status.Ready? {
        assert w.task in p.server.queue;
        FollowResolvesAtFirstSatisfying(p.server, cfg, w, callbacks[1..]);
      }
    }
  }
}
