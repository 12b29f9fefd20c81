/** The event log of the server, the event list of the client, and the protocol between them:
    requests that name the last event seen, replies that may be delayed, reordered, repeated or lost. */
module TaskEvents {
  import opened Basics

  datatype Event = Event(id: nat, taskId: string, kind: string, payload: string)

  function OrZero(n: Option<nat>): nat {
    if n.Some? then n.value else 0
  }

  // ----- server

  /** Event ids are the positions in the log, counted from one. */
  ghost predicate WellNumbered(log: seq<Event>) {
    forall i :: 0 <= i < |log| ==> log[i].id == i + 1
  }

  /** The events of a task after a given id, in log order. */
  function Replay(log: seq<Event>, task: string, since: nat): seq<Event> {
    if log == [] then []
    else
      var n := |log| - 1;
      Replay(log[..n], task, since) + if log[n].taskId == task && log[n].id > since then [log[n]] else []
  }

  class EventBus {
    var events: seq<Event>
    var nextId: nat

    ghost predicate Valid()
      reads this
    {
      WellNumbered(events) && nextId == |events| + 1
    }

    constructor ()
      ensures Valid() && events == []
    {
      events, nextId := [], 1;
    }

    method Publish(taskId: string, kind: string, payload: string) returns (event: Event)
      requires Valid()
      modifies this
      ensures Valid() && events == Append(old(events), taskId, kind, payload)
      ensures events == old(events) + [event] && event.id == |old(events)| + 1
      ensures event.taskId == taskId && event.kind == kind && event.payload == payload
    {
      event := Event(nextId, taskId, kind, payload);
      nextId := nextId + 1;
      events := events + [event];
    }

    method ReplayAfter(taskId: string, lastEventId: Option<nat>) returns (reply: seq<Event>)
      requires Valid()
      ensures reply == Slice(events, taskId, OrZero(lastEventId), |events|)
    {
      ReplayIsSlice(events, taskId, OrZero(lastEventId));
      reply := Replay(events, taskId, OrZero(lastEventId));
    }
  }

  function Append(log: seq<Event>, taskId: string, kind: string, payload: string): seq<Event> {
    log + [Event(|log| + 1, taskId, kind, payload)]
  }

  // ----- client

  datatype Client = Client(events: seq<Event>, last: Option<nat>, seen: set<nat>)

  function MergeOne(task: string, c: Client, e: Event): Client {
    if e.taskId != task || e.id in c.seen then c
    else Client(c.events + [e], Some(if OrZero(c.last) < e.id then e.id else OrZero(c.last)), c.seen + {e.id})
  }

  function Merge(task: string, c: Client, reply: seq<Event>): Client {
    if reply == [] then c
    else MergeOne(task, Merge(task, c, reply[..|reply| - 1]), reply[|reply| - 1])
  }

  class TaskEventsHook {
    const taskId: string
    var events: seq<Event>
    var lastEventId: Option<nat>
    var seenEventIds: set<nat>

    constructor (taskId: string)
      ensures this.taskId == taskId && State() == Client([], None, {})
    {
      this.taskId := taskId;
      events, lastEventId, seenEventIds := [], None, {};
    }

    function State(): Client
      reads this
    {
      Client(events, lastEventId, seenEventIds)
    }

    /** The state update of one reply. */
    method Receive(nextEvents: seq<Event>)
      modifies this
      ensures State() == Merge(taskId, old(State()), nextEvents)
    {
      var merged := events;
      var i := 0;
      while i < |nextEvents|
        invariant 0 <= i <= |nextEvents|
        invariant events == old(events)
        invariant Client(merged, lastEventId, seenEventIds) == Merge(taskId, old(State()), nextEvents[..i])
      {
        var event := nextEvents[i];
        assert nextEvents[..i + 1][..i] == nextEvents[..i];
        if event.taskId == taskId && event.id !in seenEventIds {
          seenEventIds := seenEventIds + {event.id};
          var last := OrZero(lastEventId);
          lastEventId := Some(if last < event.id then event.id else last);
          merged := merged + [event];
        }
        i := i + 1;
      }
      assert nextEvents[..i] == nextEvents;
      events := merged;
    }
  }

  // ----- what any reply does to any client, in whatever order its events come

  ghost predicate Concerns(task: string, reply: seq<Event>, id: nat) {
    exists p :: 0 <= p < |reply| && reply[p].taskId == task && reply[p].id == id
  }

  lemma ConcernsOneMore(task: string, reply: seq<Event>, id: nat)
    requires reply != []
    ensures var n := |reply| - 1;
            Concerns(task, reply, id)
            <==> Concerns(task, reply[..n], id) || (reply[n].taskId == task && reply[n].id == id)
  {
    var n := |reply| - 1;
    var front := reply[..n];
    if p :| 0 <= p < |front| && front[p].taskId == task && front[p].id == id {
      assert reply[p].taskId == task && reply[p].id == id;
    }
    if p :| 0 <= p < n && reply[p].taskId == task && reply[p].id == id {
      assert front[p].taskId == task && front[p].id == id;
    }
  }

  /** The ids of the task in the reply have been seen afterwards. */
  lemma {:induction false} ReplyIsSeen(task: string, c: Client, reply: seq<Event>, id: nat)
    ensures id in Merge(task, c, reply).seen <==> id in c.seen || Concerns(task, reply, id)
    decreases |reply|
  {
    if reply != [] {
      var n := |reply| - 1;
      ReplyIsSeen(task, c, reply[..n], id);
      ReplyIsSeen(task, c, reply[..n], reply[n].id);
      ConcernsOneMore(task, reply, id);
    }
  }

  /** The last id afterwards is the largest of the last one before and the new ones. */
  lemma {:induction false} ReplyMovesLast(task: string, c: Client, reply: seq<Event>)
    ensures var last := OrZero(Merge(task, c, reply).last);
            && OrZero(c.last) <= last
            && (forall p :: 0 <= p < |reply| && reply[p].taskId == task && reply[p].id !in c.seen
                            ==> reply[p].id <= last)
            && (last == OrZero(c.last)
                || exists p :: 0 <= p < |reply| && reply[p].taskId == task && reply[p].id !in c.seen
                               && reply[p].id == last)
    decreases |reply|
  {
    if reply != [] {
      var n := |reply| - 1;
      var front := reply[..n];
      ReplyMovesLast(task, c, front);
      ReplyIsSeen(task, c, front, reply[n].id);
      assert forall p :: 0 <= p < n ==> front[p] == reply[p];
      if Concerns(task, front, reply[n].id) {
        var p :| 0 <= p < |front| && front[p].taskId == task && front[p].id == reply[n].id;
        assert reply[p].id == reply[n].id;
      }
    }
  }

  /** Event p of the reply is of the task and new: neither seen nor earlier in the reply. */
  ghost predicate IsNews(task: string, c: Client, reply: seq<Event>, p: nat)
    requires p < |reply|
  {
    reply[p].taskId == task && reply[p].id !in c.seen && !Concerns(task, reply[..p], reply[p].id)
  }

  /** The events at these positions: the news of the reply, in order. */
  ghost predicate AreNews(task: string, c: Client, reply: seq<Event>, at: seq<nat>, news: seq<Event>) {
    && |at| == |news|
    && (forall i, j :: 0 <= i < j < |at| ==> at[i] < at[j])
    && (forall i :: 0 <= i < |at| ==> at[i] < |reply| && news[i] == reply[at[i]])
    && (forall p :: 0 <= p < |reply| ==> (p in at <==> IsNews(task, c, reply, p)))
  }

  /** The news of the reply are added to the list, in order, and nothing else is. */
  lemma {:induction false} ReplyAddsNews(task: string, c: Client, reply: seq<Event>)
    returns (at: seq<nat>, news: seq<Event>)
    ensures AreNews(task, c, reply, at, news) && Merge(task, c, reply).events == c.events + news
    decreases |reply|
  {
    at, news := [], [];
    if reply != [] {
      var n := |reply| - 1;
      at, news := ReplyAddsNews(task, c, reply[..n]);
      ReplyIsSeen(task, c, reply[..n], reply[n].id);
      OneMoreNews(task, c, reply, at, news);
      if IsNews(task, c, reply, n) {
        at, news := at + [n], news + [reply[n]];
      }
    }
  }

  lemma OneMoreNews(task: string, c: Client, reply: seq<Event>, at: seq<nat>, news: seq<Event>)
    requires reply != [] && AreNews(task, c, reply[..|reply| - 1], at, news)
    ensures var n := |reply| - 1;
            if IsNews(task, c, reply, n) then AreNews(task, c, reply, at + [n], news + [reply[n]])
            else AreNews(task, c, reply, at, news)
  {
    hide Concerns;
    var n := |reply| - 1;
    var front := reply[..n];
    forall i | 0 <= i < |at| ensures at[i] < n && news[i] == reply[at[i]] {
      assert front[at[i]] == reply[at[i]];
    }
    forall p | 0 <= p < n ensures p in at <==> IsNews(task, c, reply, p) {
      assert front[p] == reply[p] && front[..p] == reply[..p];
      assert IsNews(task, c, front, p) <==> IsNews(task, c, reply, p);
    }
    assert forall p :: p in at + [n] <==> p in at || p == n;
  }

  // ----- protocol

  datatype Message = Request(since: Option<nat>) | Reply(events: seq<Event>)

  /** Messages are never removed: one that is never delivered was lost, one delivered twice repeated. */
  datatype System = System(log: seq<Event>, client: Client, net: seq<Message>)

  datatype Step =
    | Publish(taskId: string, kind: string, payload: string)
    | Reconnect
    | Serve(m: nat)
    | Deliver(m: nat)

  const INITIAL := System([], Client([], None, {}), [])

  /** One step of a client mounted on the given task; a step that is not possible changes nothing. */
  function Apply(task: string, s: System, step: Step): System {
    match step
    case Publish(taskId, kind, payload) => s.(log := Append(s.log, taskId, kind, payload))
    case Reconnect => s.(net := s.net + [Request(s.client.last)])
    case Serve(m) =>
      if m < |s.net| && s.net[m].Request? then
        s.(net := s.net[m := Reply(Replay(s.log, task, OrZero(s.net[m].since)))])
      else s
    case Deliver(m) =>
      if m < |s.net| && s.net[m].Reply? then s.(client := Merge(task, s.client, s.net[m].events)) else s
  }

  function Run(task: string, s: System, steps: seq<Step>): System {
    if steps == [] then s
    else Apply(task, Run(task, s, steps[..|steps| - 1]), steps[|steps| - 1])
  }

  /** The log of the task cut at id n. */
  ghost function Cut(log: seq<Event>, task: string, n: nat): seq<Event>
    requires n <= |log|
  {
    Slice(log, task, 0, n)
  }

  /** The log of the task from after id lo up to id hi. */
  ghost function Slice(log: seq<Event>, task: string, lo: nat, hi: nat): seq<Event>
    requires hi <= |log|
  {
    if hi <= lo then []
    else Slice(log, task, lo, hi - 1) + if log[hi - 1].taskId == task then [log[hi - 1]] else []
  }

  ghost predicate ClientInv(log: seq<Event>, task: string, c: Client) {
    && OrZero(c.last) <= |log|
    && c.events == Cut(log, task, OrZero(c.last))
    && c.seen == set e | e in c.events :: e.id
  }

  /** The reply is a stretch of the log that leaves no gap after what the client already has. */
  ghost predicate SliceOf(log: seq<Event>, task: string, reply: seq<Event>, last: nat, lo: nat, hi: nat) {
    lo <= last && hi <= |log| && reply == Slice(log, task, lo, hi)
  }

  ghost predicate MessageInv(log: seq<Event>, task: string, last: nat, m: Message) {
    match m
    case Request(since) => OrZero(since) <= last
    case Reply(events) => exists lo: nat, hi: nat :: SliceOf(log, task, events, last, lo, hi)
  }

  ghost predicate Inv(task: string, s: System) {
    && WellNumbered(s.log)
    && ClientInv(s.log, task, s.client)
    && forall m :: 0 <= m < |s.net| ==> MessageInv(s.log, task, OrZero(s.client.last), s.net[m])
  }

  lemma {:induction false} ReplayIsSlice(log: seq<Event>, task: string, since: nat)
    requires WellNumbered(log)
    ensures Replay(log, task, since) == Slice(log, task, since, |log|)
    decreases |log|
  {
    if log != [] {
      var n := |log| - 1;
      ReplayIsSlice(log[..n], task, since);
      SliceOfPrefix(log[..n], log, task, since, n);
    }
  }

  /** Slices do not change when the log grows. */
  lemma {:induction false} SliceOfPrefix(log: seq<Event>, longer: seq<Event>, task: string, lo: nat, hi: nat)
    requires log <= longer && hi <= |log|
    ensures Slice(longer, task, lo, hi) == Slice(log, task, lo, hi)
    decreases hi
  {
    if lo < hi { SliceOfPrefix(log, longer, task, lo, hi - 1); }
  }

  /** The events of a slice carry ids of its stretch. */
  lemma {:induction false} SliceIds(log: seq<Event>, task: string, lo: nat, hi: nat, e: Event)
    requires WellNumbered(log) && hi <= |log|
    ensures e in Slice(log, task, lo, hi) <==> lo < e.id <= hi && log[e.id - 1] == e && e.taskId == task
    decreases hi
  {
    if lo < hi {
      SliceIds(log, task, lo, hi - 1, e);
    }
  }

  /** A stretch of the log without events of the task adds nothing. */
  lemma {:induction false} QuietStretch(log: seq<Event>, task: string, lo: nat, mid: nat, hi: nat)
    requires lo <= mid <= hi <= |log|
    requires forall i :: mid <= i < hi ==> log[i].taskId != task
    ensures Slice(log, task, lo, hi) == Slice(log, task, lo, mid)
    decreases hi
  {
    if mid < hi { QuietStretch(log, task, lo, mid, hi - 1); }
  }

  /** Merging a stretch that starts no later than the client's cut moves the cut to its end. */
  lemma {:induction false} MergeMovesCut(log: seq<Event>, task: string, c: Client, lo: nat, hi: nat)
    requires WellNumbered(log) && ClientInv(log, task, c)
    requires lo <= OrZero(c.last) && hi <= |log|
    ensures var c' := Merge(task, c, Slice(log, task, lo, hi));
            && ClientInv(log, task, c')
            && OrZero(c.last) <= OrZero(c'.last)
            && OrZero(c'.last) <= Max(OrZero(c.last), hi)
            && c'.events == Cut(log, task, Max(OrZero(c.last), hi))
    decreases hi
  {
    if lo < hi {
      hide ClientInv;
      MergeMovesCut(log, task, c, lo, hi - 1);
      var c1 := Merge(task, c, Slice(log, task, lo, hi - 1));
      var e := log[hi - 1];
      if e.taskId == task {
        assert Slice(log, task, lo, hi)[..|Slice(log, task, lo, hi)| - 1] == Slice(log, task, lo, hi - 1);
        assert Merge(task, c, Slice(log, task, lo, hi)) == MergeOne(task, c1, e);
        MergeOneMovesCut(log, task, c1, OrZero(c.last), hi);
      } else {
        assert Slice(log, task, lo, hi) == Slice(log, task, lo, hi - 1);
      }
    }
  }

  lemma MergeOneMovesCut(log: seq<Event>, task: string, c: Client, last0: nat, hi: nat)
    requires WellNumbered(log) && ClientInv(log, task, c)
    requires 0 < hi <= |log| && log[hi - 1].taskId == task
    requires last0 <= OrZero(c.last) <= Max(last0, hi - 1) <= |log|
    requires c.events == Cut(log, task, Max(last0, hi - 1))
    ensures var c' := MergeOne(task, c, log[hi - 1]);
            && ClientInv(log, task, c')
            && last0 <= OrZero(c'.last) <= Max(last0, hi)
            && c'.events == Cut(log, task, Max(last0, hi))
  {
    var e := log[hi - 1];
    SliceIds(log, task, 0, Max(last0, hi - 1), e);
    SeenMeansListed(log, task, c, e);
    if last0 < hi {
      var events := c.events + [e];
      assert c.seen + {e.id} == set f | f in events :: f.id;
    }
  }

  lemma SeenMeansListed(log: seq<Event>, task: string, c: Client, e: Event)
    requires WellNumbered(log) && ClientInv(log, task, c) && 1 <= e.id <= |log| && log[e.id - 1] == e
    ensures e.id in c.seen <==> e in c.events
  {
    forall f | f in c.events && f.id == e.id ensures f == e {
      SliceIds(log, task, 0, OrZero(c.last), f);
    }
  }

  lemma StepKeepsInv(task: string, s: System, step: Step)
    requires Inv(task, s)
    ensures Inv(task, Apply(task, s, step))
  {
    var s' := Apply(task, s, step);
    match step
    case Publish(taskId, kind, payload) => PublishKeepsInv(task, s, s');
    case Reconnect =>
    case Serve(m) =>
      if m < |s.net| && s.net[m].Request? {
        var since := OrZero(s.net[m].since);
        ReplayIsSlice(s.log, task, since);
        assert SliceOf(s.log, task, s'.net[m].events, OrZero(s.client.last), since, |s.log|);
      }
    case Deliver(m) =>
      if m < |s.net| && s.net[m].Reply? {
        DeliverKeepsInv(task, s, m);
      }
  }

  lemma PublishKeepsInv(task: string, s: System, s': System)
    requires Inv(task, s) && s.log <= s'.log && WellNumbered(s'.log) && s' == s.(log := s'.log)
    ensures Inv(task, s')
  {
    var last := OrZero(s.client.last);
    SliceOfPrefix(s.log, s'.log, task, 0, last);
    forall m | 0 <= m < |s.net| ensures MessageInv(s'.log, task, last, s.net[m]) {
      assert MessageInv(s.log, task, last, s.net[m]);
      if s.net[m].Reply? {
        var lo: nat, hi: nat :| SliceOf(s.log, task, s.net[m].events, last, lo, hi);
        SliceOfPrefix(s.log, s'.log, task, lo, hi);
        assert SliceOf(s'.log, task, s.net[m].events, last, lo, hi);
      }
    }
  }

  lemma DeliverKeepsInv(task: string, s: System, m: nat)
    requires Inv(task, s) && m < |s.net| && s.net[m].Reply?
    ensures Inv(task, Apply(task, s, Deliver(m)))
    ensures OrZero(s.client.last) <= OrZero(Apply(task, s, Deliver(m)).client.last)
  {
    var last := OrZero(s.client.last);
    assert MessageInv(s.log, task, last, s.net[m]);
    var lo: nat, hi: nat :| SliceOf(s.log, task, s.net[m].events, last, lo, hi);
    MergeMovesCut(s.log, task, s.client, lo, hi);
    var s' := Apply(task, s, Deliver(m));
    forall k | 0 <= k < |s.net| ensures MessageInv(s.log, task, OrZero(s'.client.last), s.net[k]) {
      MessageInvGrows(s.log, task, last, OrZero(s'.client.last), s.net[k]);
    }
  }

  lemma MessageInvGrows(log: seq<Event>, task: string, last: nat, last': nat, m: Message)
    requires MessageInv(log, task, last, m) && last <= last'
    ensures MessageInv(log, task, last', m)
  {
    if m.Reply? {
      var lo: nat, hi: nat :| SliceOf(log, task, m.events, last, lo, hi);
      assert SliceOf(log, task, m.events, last', lo, hi);
    }
  }

  /** In every run the client's list is the server's log for the task cut at lastEventId. */
  lemma {:induction false} ClientIsCutOfLog(task: string, steps: seq<Step>)
    ensures Inv(task, Run(task, INITIAL, steps))
    ensures var s := Run(task, INITIAL, steps);
            OrZero(s.client.last) <= |s.log| && s.client.events == Cut(s.log, task, OrZero(s.client.last))
    decreases |steps|
  {
    if steps != [] {
      ClientIsCutOfLog(task, steps[..|steps| - 1]);
      StepKeepsInv(task, Run(task, INITIAL, steps[..|steps| - 1]), steps[|steps| - 1]);
    }
  }

  /** Such a cut holds exactly the task's events up to its end, in order and without repetition. */
  lemma {:induction false} CutIsOrdered(log: seq<Event>, task: string, n: nat)
    requires WellNumbered(log) && n <= |log|
    ensures forall e :: e in Cut(log, task, n) <==> 1 <= e.id <= n && log[e.id - 1] == e && e.taskId == task
    ensures forall i, j :: 0 <= i < j < |Cut(log, task, n)| ==> Cut(log, task, n)[i].id < Cut(log, task, n)[j].id
    decreases n
  {
    forall e ensures e in Cut(log, task, n) <==> 1 <= e.id <= n && log[e.id - 1] == e && e.taskId == task {
      SliceIds(log, task, 0, n, e);
    }
    if n > 0 {
      CutIsOrdered(log, task, n - 1);
    }
  }

  // ----- catching up

  /** Message m is a request, or a reply that covers the whole log of the task. */
  ghost predicate Fresh(task: string, s: System, m: nat) {
    && m < |s.net|
    && (s.net[m].Reply? ==> exists lo: nat, hi: nat :: Covering(task, s, s.net[m].events, lo, hi))
  }

  ghost predicate Covering(task: string, s: System, reply: seq<Event>, lo: nat, hi: nat) {
    && SliceOf(s.log, task, reply, OrZero(s.client.last), lo, hi)
    && forall i :: hi <= i < |s.log| ==> s.log[i].taskId != task
  }

  lemma StepKeepsFresh(task: string, s: System, step: Step, m: nat)
    requires Inv(task, s) && Fresh(task, s, m)
    requires step.Publish? ==> step.taskId != task
    ensures Fresh(task, Apply(task, s, step), m)
  {
    var s' := Apply(task, s, step);
    if s'.net[m].Reply? {
      if s.net[m].Request? {
        var since := OrZero(s.net[m].since);
        assert MessageInv(s.log, task, OrZero(s.client.last), s.net[m]);
        ReplayIsSlice(s.log, task, since);
        assert Covering(task, s', s'.net[m].events, since, |s.log|);
      } else {
        var lo: nat, hi: nat :| Covering(task, s, s.net[m].events, lo, hi);
        SliceOfPrefix(s.log, s'.log, task, lo, hi);
        if step.Deliver? && step.m < |s.net| && s.net[step.m].Reply? {
          DeliverKeepsInv(task, s, step.m);
        }
        assert Covering(task, s', s'.net[m].events, lo, hi);
      }
    }
  }

  lemma {:induction false} RunKeepsFresh(task: string, s: System, steps: seq<Step>, m: nat)
    requires Inv(task, s) && Fresh(task, s, m)
    requires forall i :: 0 <= i < |steps| && steps[i].Publish? ==> steps[i].taskId != task
    ensures Inv(task, Run(task, s, steps)) && Fresh(task, Run(task, s, steps), m)
    decreases |steps|
  {
    if steps != [] {
      var n := |steps| - 1;
      RunKeepsFresh(task, s, steps[..n], m);
      StepKeepsFresh(task, Run(task, s, steps[..n]), steps[n], m);
      StepKeepsInv(task, Run(task, s, steps[..n]), steps[n]);
    }
  }

  /** A request answered at once brings exactly the task's events that the client does not have yet. */
  lemma ReplyBringsNews(task: string, steps: seq<Step>, e: Event)
    ensures var s := Run(task, INITIAL, steps);
            var served := Apply(task, Apply(task, s, Reconnect), Serve(|s.net|));
            && |served.net| == |s.net| + 1 && served.net[|s.net|].Reply?
            && (e in served.net[|s.net|].events <==> e in s.log && e.taskId == task && e !in s.client.events)
  {
    var s := Run(task, INITIAL, steps);
    var last := OrZero(s.client.last);
    ClientIsCutOfLog(task, steps);
    ReplayIsSlice(s.log, task, last);
    SliceIds(s.log, task, last, |s.log|, e);
    SliceIds(s.log, task, 0, last, e);
    if e in s.log {
      var i :| 0 <= i < |s.log| && s.log[i] == e;
    }
  }

  /** Once the reply to a request issued after the task's last publish arrives, the client holds the
      whole log of the task, whatever else happened in between. */
  lemma CatchUp(task: string, before: seq<Step>, between: seq<Step>)
    requires forall i :: 0 <= i < |between| && between[i].Publish? ==> between[i].taskId != task
    requires var m := |Run(task, INITIAL, before).net|;
             var s := Run(task, Apply(task, Run(task, INITIAL, before), Reconnect), between);
             m < |s.net| && s.net[m].Reply?
    ensures var m := |Run(task, INITIAL, before).net|;
            var s := Run(task, Apply(task, Run(task, INITIAL, before), Reconnect), between);
            Apply(task, s, Deliver(m)).client.events == Cut(s.log, task, |s.log|)
  {
    var s0 := Run(task, INITIAL, before);
    var m := |s0.net|;
    ClientIsCutOfLog(task, before);
    StepKeepsInv(task, s0, Reconnect);
    RunKeepsFresh(task, Apply(task, s0, Reconnect), between, m);
    var s := Run(task, Apply(task, s0, Reconnect), between);
    var lo: nat, hi: nat :| Covering(task, s, s.net[m].events, lo, hi);
    MergeMovesCut(s.log, task, s.client, lo, hi);
    QuietStretch(s.log, task, 0, Max(OrZero(s.client.last), hi), |s.log|);
  }
}
