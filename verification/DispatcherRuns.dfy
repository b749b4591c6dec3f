/** What the dispatcher keeps over every run of packets, registrations and
    sessions at work on the queues. */
module DispatcherRuns {
  import opened Wrappers
  import opened Words
  import opened Dispatcher

  // ----- One packet -----

  /** The search visits every worker exactly once. */
  lemma SearchVisitsOnce(n: nat, idx: nat, a: nat)
    requires idx < n && a < n
    ensures exists i :: 0 <= i < n && Around(n, idx, i) == a
    ensures forall i, j :: 0 <= i < n && 0 <= j < n && Around(n, idx, i) == Around(n, idx, j) ==> i == j
  {
    var i := if idx <= a then a - idx else a + n - idx;
    assert Around(n, idx, i) == a;
  }

  /** The search finds the first free worker in cyclic order; it finds none
      only if there is none. */
  lemma {:induction false} SearchFinds(free: seq<bool>, idx: nat, i: nat)
    requires idx < |free| && i <= |free|
    ensures Search(free, idx, i).None? <==> forall j :: i <= j < |free| ==> !free[Around(|free|, idx, j)]
    ensures Search(free, idx, i).Some? ==>
      exists j :: i <= j < |free| && Search(free, idx, i).value == Around(|free|, idx, j)
        && forall m :: i <= m < j ==> !free[Around(|free|, idx, m)]
    decreases |free| - i
  {
    if i < |free| && !free[Around(|free|, idx, i)] {
      SearchFinds(free, idx, i + 1);
    }
  }

  lemma SearchFailsExactly(free: seq<bool>, idx: nat)
    requires idx < |free|
    ensures Search(free, idx, 0).None? <==> forall a :: 0 <= a < |free| ==> !free[a]
  {
    SearchFinds(free, idx, 0);
    forall a | 0 <= a < |free| && Search(free, idx, 0).None?
      ensures !free[a]
    {
      SearchVisitsOnce(|free|, idx, a);
      var i :| 0 <= i < |free| && Around(|free|, idx, i) == a;
    }
  }

  /** Work conservation: a packet is lost exactly when there is no worker, or
      every SendCh is full and the packet is large or every PrioCh is full. */
  lemma LostExactlyWhenFull(s: State, p: Packet, now: int)
    ensures Dispatch(s, p, now).1.NoWorkers? || Dispatch(s, p, now).1.AllFull?
       <==> (forall k :: 0 <= k < |s.workers| ==> |s.workers[k].send| >= 128)
            && (p.size > 128 || forall k :: 0 <= k < |s.workers| ==> |s.workers[k].prio| >= 32)
  {
    if s.workers != [] {
      var a := AfterPause(CountRead(s), now);
      var d := AfterDwell(a, now);
      var idx, jdx := a.rrIndex % |s.workers|, d.rrIndex % |s.workers|;
      SearchFailsExactly(PrioFree(s.workers), idx);
      SearchFailsExactly(SendFree(s.workers), jdx);
      hide Search, AfterPause, AfterDwell, Booked, GaveUp, PutSend, PutPrio, CountSent, CountDropped, CountRead;
      assert forall k :: 0 <= k < |s.workers| ==> PrioFree(s.workers)[k] == (|s.workers[k].prio| < PRIO_CAP);
      assert forall k :: 0 <= k < |s.workers| ==> SendFree(s.workers)[k] == (|s.workers[k].send| < SEND_CAP);
    }
  }

  /** Where a data packet meant for `idx` lands: every worker cyclically before
      the one it reaches is full. Coming all the way round to the predecessor of
      `idx`, in particular, means that all the others are full. */
  lemma RoundTripMeansFull(s: State, p: Packet, now: int, k: nat)
    requires |s.workers| >= 2 && s.rrIndex < |s.workers|
    requires Search(SendFree(s.workers), s.rrIndex, 0) == Some(k)
    requires (k + 1) % |s.workers| == s.rrIndex
    ensures forall m :: 0 <= m < |s.workers| && m != k ==> |s.workers[m].send| >= SEND_CAP
  {
    var n, idx, free := |s.workers|, s.rrIndex, SendFree(s.workers);
    SearchFinds(free, idx, 0);
    var j :| 0 <= j < n && k == Around(n, idx, j) && forall m :: 0 <= m < j ==> !free[Around(n, idx, m)];
    Wrap(n, k + 1);
    assert j == n - 1;
    forall m | 0 <= m < n && m != k
      ensures |s.workers[m].send| >= SEND_CAP
    {
      SearchVisitsOnce(n, idx, m);
      var i :| 0 <= i < n && Around(n, idx, i) == m;
      assert !free[Around(n, idx, i)];
    }
  }

  /** While the pointer stands just behind worker `k`, a data packet that the
      pause and dwell rules leave there reaches `k` only if all the other workers
      are full. */
  lemma NextChunkMovesOn(s: State, t: State, p: Packet, now: int, k: nat)
    requires |t.workers| >= 2 && k < |t.workers| && t.rrIndex == (k + 1) % |t.workers|
    requires t.rrIndex < |t.workers|
    requires s == AfterDwell(AfterPause(CountRead(t), now), now) && s.rrIndex == t.rrIndex
    requires forall i :: 0 <= i < |t.workers| && i != k ==> t.workers[i].id != t.workers[k].id
    requires Dispatch(t, p, now).1 == Sent(t.workers[k].id)
    ensures forall m :: 0 <= m < |t.workers| && m != k ==> |t.workers[m].send| >= SEND_CAP
  {
    var free := SendFree(s.workers);
    Wrap(|s.workers|, s.rrIndex);
    SearchInRange(free, s.rrIndex, 0);
    RoundTripMeansFull(s, p, now, k);
  }

  /** A data send that leaves the chunk counter at 0 has completed a chunk: the
      pointer stands just behind the worker that took it. */
  lemma CompletionMovesPointer(s: State, p: Packet, now: int) returns (k: nat)
    requires s.workers != [] && Dispatch(s, p, now).1.Sent? && Dispatch(s, p, now).0.rrCount == 0
    ensures var (t, f) := Dispatch(s, p, now);
            && |t.workers| == |s.workers| && k < |s.workers| && f == Sent(s.workers[k].id)
            && t.rrIndex == (k + 1) % |s.workers| && t.rrIndex < |s.workers|
            && forall i :: 0 <= i < |s.workers| ==> t.workers[i].id == s.workers[i].id
  {
    var d := AfterDwell(AfterPause(CountRead(s), now), now);
    k := d.rrIndex % |s.workers|;
    Wrap(|s.workers|, d.rrIndex);
    Wrap(|s.workers|, k + 1);
    SearchInRange(SendFree(s.workers), k, 0);
    hide Search, AfterPause, AfterDwell, SendFree, PrioFree;
  }

  /** The chunk rule: after a completed chunk, the next data packet, when no
      pause or dwell switch moves the pointer, goes back to the same worker only
      if all the other workers are full. */
  lemma CompletedChunkMovesOn(s: State, p: Packet, now: int, q: Packet, later: int)
    requires |s.workers| >= 2 && forall i, j :: 0 <= i < j < |s.workers| ==> s.workers[i].id != s.workers[j].id
    requires Dispatch(s, p, now).1.Sent? && Dispatch(s, p, now).0.rrCount == 0
    requires var t := Dispatch(s, p, now).0;
             t.workers != [] && AfterDwell(AfterPause(CountRead(t), later), later).rrIndex == t.rrIndex
    requires Dispatch(Dispatch(s, p, now).0, q, later).1 == Dispatch(s, p, now).1
    ensures var (t, f) := Dispatch(s, p, now);
            forall m :: 0 <= m < |t.workers| && t.workers[m].id != f.id ==> |t.workers[m].send| >= SEND_CAP
  {
    var k := CompletionMovesPointer(s, p, now);
    var t := Dispatch(s, p, now).0;
    var u := AfterDwell(AfterPause(CountRead(t), later), later);
    hide Dispatch, AfterDwell, AfterPause, CountRead;
    NextChunkMovesOn(u, t, q, later, k);
  }

  // ----- Runs -----

  datatype DataSend = DataSend(id: nat, at: int)

  /** `stream` is what readLoop read, `fates` what became of each packet.
      `sendLeft[id]` and `prioLeft[id]` list what has left the queues of slot
      `id`: taken by its session, or drained or left behind when it was
      unregistered. `sends` logs the data sends with their clock readings;
      `steady` says that the clock has not gone backwards so far. */
  datatype System = System(d: State, stream: seq<Packet>, fates: seq<Fate>, sends: seq<DataSend>,
                           sendLeft: map<nat, seq<Packet>>, prioLeft: map<nat, seq<Packet>>,
                           used: set<nat>, clock: int, steady: bool)

  datatype Event =
    | Read(p: Packet, now: int)
    | Register(id: nat)
    | Unregister(k: nat)
    | TakeSend(k: nat)
    | TakePrio(k: nat)
    | Ping(k: nat, size: nat)

  function Start(raw: bool): System {
    System(State([], 0, 0, 0, 0, raw, 0, 0, 0), [], [], [], map[], map[], {}, 0, true)
  }

  function Get(m: map<nat, seq<Packet>>, id: nat): seq<Packet> { if id in m then m[id] else [] }

  predicate Enabled(s: System, e: Event) {
    match e
    case Read(p, now) => p.Traffic? && now > 0
    case Register(id) => id !in s.used
    case Unregister(k) => k < |s.d.workers|
    case TakeSend(k) => k < |s.d.workers| && s.d.workers[k].send != []
    case TakePrio(k) => k < |s.d.workers| && s.d.workers[k].prio != []
    case Ping(k, _) => k < |s.d.workers| && |s.d.workers[k].prio| < PRIO_CAP
  }

  function Apply(s: System, e: Event): System
    requires Enabled(s, e)
  {
    match e
    case Read(p, now) =>
      var (d, f) := Dispatch(s.d, p, now);
      s.(d := d, stream := s.stream + [p], fates := s.fates + [f],
         sends := if f.Sent? then s.sends + [DataSend(f.id, now)] else s.sends,
         clock := now, steady := s.steady && s.clock <= now)
    case Register(id) => s.(d := Registered(s.d, Slot(id, [], [])), used := s.used + {id})
    case Unregister(k) =>
      var w := s.d.workers[k];
      s.(d := Unregistered(s.d, k),
         sendLeft := s.sendLeft[w.id := Get(s.sendLeft, w.id) + w.send],
         prioLeft := s.prioLeft[w.id := Get(s.prioLeft, w.id) + w.prio])
    case TakeSend(k) =>
      var w := s.d.workers[k];
      s.(d := s.d.(workers := s.d.workers[k := w.(send := w.send[1..])]),
         sendLeft := s.sendLeft[w.id := Get(s.sendLeft, w.id) + [w.send[0]]])
    case TakePrio(k) =>
      var w := s.d.workers[k];
      s.(d := s.d.(workers := s.d.workers[k := w.(prio := w.prio[1..])]),
         prioLeft := s.prioLeft[w.id := Get(s.prioLeft, w.id) + [w.prio[0]]])
    case Ping(k, size) => s.(d := s.d.(workers := PutPrio(s.d.workers, k, Keepalive(size))))
  }

  /** An event that cannot happen in a state changes nothing. */
  function Step(s: System, e: Event): System { if Enabled(s, e) then Apply(s, e) else s }

  function Run(raw: bool, events: seq<Event>): System {
    if events == [] then Start(raw) else Step(Run(raw, events[..|events| - 1]), events[|events| - 1])
  }

  // ----- Conservation and order -----

  /** The packets of the stream that met fate `f`, in order. */
  function Picked(stream: seq<Packet>, fates: seq<Fate>, f: Fate): seq<Packet>
    requires |stream| == |fates|
  {
    if stream == [] then []
    else
      var n := |stream| - 1;
      Picked(stream[..n], fates[..n], f) + if fates[n] == f then [stream[n]] else []
  }

  function Traffic(q: seq<Packet>): seq<Packet> {
    if q == [] then []
    else Traffic(q[..|q| - 1]) + if q[|q| - 1].Traffic? then [q[|q| - 1]] else []
  }

  function Lost(fates: seq<Fate>): nat {
    if fates == [] then 0
    else Lost(fates[..|fates| - 1]) + match fates[|fates| - 1] case NoWorkers => 1 case AllFull => 1 case _ => 0
  }

  /** The slot registered under an id, or an empty one. */
  function SlotOf(ws: seq<Slot>, id: nat): Slot {
    if ws == [] then Slot(id, [], [])
    else if ws[0].id == id then ws[0]
    else SlotOf(ws[1..], id)
  }

  predicate Unique(ws: seq<Slot>) {
    forall i, j :: 0 <= i < j < |ws| ==> ws[i].id != ws[j].id
  }

  ghost predicate UniqueIds(s: System) {
    Unique(s.d.workers) && forall i :: 0 <= i < |s.d.workers| ==> s.d.workers[i].id in s.used
  }

  /** What the dispatcher put into the queues of slot `id` is, in order, what
      has left them followed by what is still in them. */
  ghost predicate Balanced(s: System, id: nat)
    requires |s.stream| == |s.fates|
  {
    var w := SlotOf(s.d.workers, id);
    && Picked(s.stream, s.fates, Sent(id)) == Get(s.sendLeft, id) + w.send
    && Picked(s.stream, s.fates, Prioritized(id)) == Traffic(Get(s.prioLeft, id) + w.prio)
  }

  /** The raw-mode counters, which wrap at 2^64. */
  ghost predicate Counted(s: System) {
    if s.d.raw then
      && s.d.read == Low64(|s.fates|)
      && s.d.dropped == Low64(Lost(s.fates))
      && s.d.sent == Low64(|s.fates| - Lost(s.fates))
    else s.d.read == s.d.dropped == s.d.sent == 0
  }

  ghost predicate Conserved(s: System) {
    && |s.stream| == |s.fates|
    && UniqueIds(s)
    && Counted(s)
    && (forall p :: p in s.stream ==> p.Traffic?)
    && forall id :: Balanced(s, id)
  }

  lemma {:induction false} SlotAt(ws: seq<Slot>, k: nat)
    requires k < |ws| && Unique(ws)
    ensures SlotOf(ws, ws[k].id) == ws[k]
  {
    if k > 0 {
      assert ws[1..][k - 1] == ws[k];
      SlotAt(ws[1..], k - 1);
    }
  }

  lemma {:induction false} SlotAfterUpdate(ws: seq<Slot>, k: nat, w: Slot, id: nat)
    requires k < |ws| && Unique(ws) && w.id == ws[k].id
    ensures Unique(ws[k := w])
    ensures SlotOf(ws[k := w], id) == if id == w.id then w else SlotOf(ws, id)
  {
    var vs := ws[k := w];
    if k == 0 {
      assert vs[1..] == ws[1..];
    } else {
      assert vs[1..] == ws[1..][k - 1 := w];
      SlotAfterUpdate(ws[1..], k - 1, w, id);
    }
  }

  lemma {:induction false} SlotAfterAppend(ws: seq<Slot>, w: Slot, id: nat)
    requires forall i :: 0 <= i < |ws| ==> ws[i].id != w.id
    ensures SlotOf(ws + [w], id) == if id == w.id then w else SlotOf(ws, id)
  {
    if ws != [] {
      assert (ws + [w])[1..] == ws[1..] + [w];
      SlotAfterAppend(ws[1..], w, id);
    }
  }

  lemma CutKeepsUnique(ws: seq<Slot>, k: nat)
    requires k < |ws| && Unique(ws)
    ensures Unique(Cut(ws, k)) && |Cut(ws, k)| == |ws| - 1
    ensures forall i :: 0 <= i < |ws| - 1 ==> Cut(ws, k)[i] == ws[if i < k then i else i + 1]
  {
    var vs := Cut(ws, k);
    assert forall i :: 0 <= i < |vs| ==> vs[i] == ws[if i < k then i else i + 1];
    hide Cut;
  }

  lemma {:induction false} SlotAfterCut(ws: seq<Slot>, k: nat, id: nat)
    requires k < |ws| && Unique(ws)
    ensures SlotOf(Cut(ws, k), id) == if id == ws[k].id then Slot(id, [], []) else SlotOf(ws, id)
  {
    CutKeepsUnique(ws, k);
    if k == 0 {
      assert Cut(ws, 0) == ws[1..];
      if id == ws[0].id {
        SlotAbsent(ws[1..], id);
      }
    } else {
      assert Cut(ws, k)[1..] == Cut(ws[1..], k - 1);
      assert Cut(ws, k)[0] == ws[0];
      hide Cut;
      SlotAfterCut(ws[1..], k - 1, id);
    }
  }

  lemma {:induction false} SlotAbsent(ws: seq<Slot>, id: nat)
    requires forall i :: 0 <= i < |ws| ==> ws[i].id != id
    ensures SlotOf(ws, id) == Slot(id, [], [])
  {
    if ws != [] {
      SlotAbsent(ws[1..], id);
    }
  }

  lemma PickedExtends(stream: seq<Packet>, fates: seq<Fate>, p: Packet, f: Fate, g: Fate)
    requires |stream| == |fates|
    ensures Picked(stream + [p], fates + [f], g) == Picked(stream, fates, g) + if f == g then [p] else []
  {
  }

  lemma TrafficExtends(q: seq<Packet>, p: Packet)
    ensures Traffic(q + [p]) == Traffic(q) + if p.Traffic? then [p] else []
  {
  }

  lemma LostExtends(fates: seq<Fate>, f: Fate)
    ensures Lost(fates + [f]) == Lost(fates) + if f.Sent? || f.Prioritized? then 0 else 1
    ensures Lost(fates) <= |fates|
  {
  }

  lemma {:induction false} LostAtMost(fates: seq<Fate>)
    ensures Lost(fates) <= |fates|
  {
    if fates != [] {
      LostAtMost(fates[..|fates| - 1]);
    }
  }

  /** One packet goes to the end of at most one queue, the one its fate names. */
  lemma DispatchMovesOne(s: State, p: Packet, now: int) returns (k: nat)
    ensures var (t, f) := Dispatch(s, p, now);
            match f
            case Sent(id) => k < |s.workers| && s.workers[k].id == id && t.workers == PutSend(s.workers, k, p)
            case Prioritized(id) => k < |s.workers| && s.workers[k].id == id && t.workers == PutPrio(s.workers, k, p)
            case _ => t.workers == s.workers
  {
    hide Search, AfterPause, AfterDwell, CountSent, CountDropped, CountRead, Booked, GaveUp, PutSend, PutPrio;
    k := 0;
    if s.workers != [] {
      var a := AfterPause(CountRead(s), now);
      var d := AfterDwell(a, now);
      var prio := Search(PrioFree(a.workers), a.rrIndex % |a.workers|, 0);
      var data := Search(SendFree(d.workers), d.rrIndex % |d.workers|, 0);
      SearchInRange(PrioFree(a.workers), a.rrIndex % |a.workers|, 0);
      SearchInRange(SendFree(d.workers), d.rrIndex % |d.workers|, 0);
      hide PrioFree, SendFree;
      if p.size <= PRIO_THRESHOLD && prio.Some? {
        k := prio.value;
      } else if data.Some? {
        k := data.value;
      }
    }
  }

  lemma DispatchCounts(s: State, p: Packet, now: int)
    ensures var (t, f) := Dispatch(s, p, now);
            && t.raw == s.raw
            && (s.raw ==>
                  && t.read == Low64(s.read + 1)
                  && (if f.Sent? || f.Prioritized? then t.sent == Low64(s.sent + 1) && t.dropped == s.dropped
                      else t.sent == s.sent && t.dropped == Low64(s.dropped + 1)))
  {
    hide Search, PutSend, PutPrio, AfterPause, AfterDwell, Booked, GaveUp, SendFree, PrioFree, Low64;
  }

  lemma ReadBalances(s: System, p: Packet, now: int, id: nat)
    requires Conserved(s) && Enabled(s, Read(p, now))
    ensures |Apply(s, Read(p, now)).stream| == |Apply(s, Read(p, now)).fates|
    ensures Balanced(Apply(s, Read(p, now)), id)
  {
    var (d, f) := Dispatch(s.d, p, now);
    var k := DispatchMovesOne(s.d, p, now);
    var ws := s.d.workers;
    assert Balanced(s, id);
    assert Unique(ws);
    PickedExtends(s.stream, s.fates, p, f, Sent(id));
    PickedExtends(s.stream, s.fates, p, f, Prioritized(id));
    hide Dispatch, Counted, UniqueIds, Picked, Traffic;
    match f
    case Sent(a) =>
      SendQueueGrows(ws, k, p, id, Get(s.sendLeft, id));
    case Prioritized(a) =>
      PrioQueueGrows(ws, k, p, id, Get(s.prioLeft, id));
    case _ =>
  }

  lemma SendQueueGrows(ws: seq<Slot>, k: nat, p: Packet, id: nat, left: seq<Packet>)
    requires k < |ws| && Unique(ws)
    ensures var w, v := SlotOf(ws, id), SlotOf(PutSend(ws, k, p), id);
            v.prio == w.prio && left + v.send == left + w.send + if id == ws[k].id then [p] else []
  {
    SlotAt(ws, k);
    SlotAfterUpdate(ws, k, ws[k].(send := ws[k].send + [p]), id);
  }

  lemma PrioQueueGrows(ws: seq<Slot>, k: nat, p: Packet, id: nat, left: seq<Packet>)
    requires k < |ws| && Unique(ws)
    ensures var w, v := SlotOf(ws, id), SlotOf(PutPrio(ws, k, p), id);
            && v.send == w.send && left + v.prio == left + w.prio + (if id == ws[k].id then [p] else [])
            && Traffic(left + v.prio) == Traffic(left + w.prio) + if id == ws[k].id && p.Traffic? then [p] else []
  {
    SlotAt(ws, k);
    var w := SlotOf(ws, id);
    SlotAfterUpdate(ws, k, ws[k].(prio := ws[k].prio + [p]), id);
    if id == ws[k].id {
      assert left + (w.prio + [p]) == left + w.prio + [p];
      TrafficExtends(left + w.prio, p);
    }
  }

  lemma ReadKeepsUnique(s: System, p: Packet, now: int)
    requires UniqueIds(s) && Enabled(s, Read(p, now))
    ensures UniqueIds(Apply(s, Read(p, now)))
  {
    var k := DispatchMovesOne(s.d, p, now);
    hide Dispatch;
  }

  lemma ReadCounts(s: System, p: Packet, now: int)
    requires Counted(s) && Enabled(s, Read(p, now))
    ensures Counted(Apply(s, Read(p, now)))
  {
    var (d, f) := Dispatch(s.d, p, now);
    DispatchCounts(s.d, p, now);
    LostExtends(s.fates, f);
    LostAtMost(s.fates);
    var n, l := |s.fates|, Lost(s.fates);
    Low64Next(n);
    Low64Next(l);
    Low64Next(n - l);
    hide Dispatch, Low64, Lost;
    assert (n - l) + 1 == (n + 1) - l;
    assert |Apply(s, Read(p, now)).fates| == n + 1;
  }

  lemma Low64Next(x: nat)
    ensures Low64(Low64(x) + 1) == Low64(x + 1)
  {
  }

  /** The sessions and the registry only move packets that are on file. */
  lemma OtherBalances(s: System, e: Event, id: nat)
    requires Conserved(s) && Enabled(s, e) && !e.Read?
    ensures |Apply(s, e).stream| == |Apply(s, e).fates|
    ensures Balanced(Apply(s, e), id)
  {
    var ws := s.d.workers;
    assert Balanced(s, id) && Unique(ws);
    hide Picked, Traffic, Unregistered, Registered, Unique;
    match e
    case Register(a) => RegisterBalances(s, a, id);
    case Unregister(k) => UnregisterBalances(s, k, id);
    case TakeSend(k) => TakeSendBalances(s, k, id);
    case TakePrio(k) => TakePrioBalances(s, k, id);
    case Ping(k, size) =>
      PrioQueueGrows(ws, k, Keepalive(size), id, Get(s.prioLeft, id));
  }

  lemma TakeSendBalances(s: System, k: nat, id: nat)
    requires Conserved(s) && Enabled(s, TakeSend(k)) && Balanced(s, id)
    ensures Balanced(Apply(s, TakeSend(k)), id)
  {
    var w := s.d.workers[k];
    SlotAt(s.d.workers, k);
    SlotAfterUpdate(s.d.workers, k, w.(send := w.send[1..]), id);
    hide Picked, Traffic, SlotOf;
    assert Get(s.sendLeft, w.id) + [w.send[0]] + w.send[1..] == Get(s.sendLeft, w.id) + w.send;
  }

  lemma TakePrioBalances(s: System, k: nat, id: nat)
    requires Conserved(s) && Enabled(s, TakePrio(k)) && Balanced(s, id)
    ensures Balanced(Apply(s, TakePrio(k)), id)
  {
    var w := s.d.workers[k];
    SlotAt(s.d.workers, k);
    SlotAfterUpdate(s.d.workers, k, w.(prio := w.prio[1..]), id);
    hide Picked, Traffic, SlotOf;
    assert Get(s.prioLeft, w.id) + [w.prio[0]] + w.prio[1..] == Get(s.prioLeft, w.id) + w.prio;
  }

  lemma RegisterBalances(s: System, a: nat, id: nat)
    requires Conserved(s) && Enabled(s, Register(a)) && Balanced(s, id)
    ensures Balanced(Apply(s, Register(a)), id)
  {
    SlotAfterAppend(s.d.workers, Slot(a, [], []), id);
    if id == a {
      SlotAbsent(s.d.workers, a);
    }
  }

  lemma UnregisterBalances(s: System, k: nat, id: nat)
    requires Conserved(s) && Enabled(s, Unregister(k)) && Balanced(s, id)
    ensures Balanced(Apply(s, Unregister(k)), id)
  {
    var w := s.d.workers[k];
    SlotAt(s.d.workers, k);
    SlotAfterCut(s.d.workers, k, id);
    assert Apply(s, Unregister(k)).d.workers == Cut(s.d.workers, k);
    hide Cut, Unregistered;
    if id == w.id {
      assert Get(s.sendLeft, id) + w.send + [] == Get(s.sendLeft, id) + w.send;
      assert Get(s.prioLeft, id) + w.prio + [] == Get(s.prioLeft, id) + w.prio;
    }
  }

  lemma OtherKeepsUnique(s: System, e: Event)
    requires UniqueIds(s) && Enabled(s, e) && !e.Read?
    ensures UniqueIds(Apply(s, e))
  {
    if e.Unregister? {
      CutKeepsUnique(s.d.workers, e.k);
    }
  }

  lemma {:induction false} RunConserves(raw: bool, events: seq<Event>)
    ensures Conserved(Run(raw, events))
  {
    if events != [] {
      var s, e := Run(raw, events[..|events| - 1]), events[|events| - 1];
      RunConserves(raw, events[..|events| - 1]);
      if Enabled(s, e) {
        if e.Read? {
          ReadKeepsUnique(s, e.p, e.now);
          ReadCounts(s, e.p, e.now);
          forall id ensures Balanced(Apply(s, e), id) { ReadBalances(s, e.p, e.now, id); }
        } else {
          OtherKeepsUnique(s, e);
          forall id ensures Balanced(Apply(s, e), id) { OtherBalances(s, e, id); }
        }
        hide Balanced, UniqueIds;
      }
    }
  }

  /** In raw mode read == sent + dropped after every packet. */
  lemma CountersAgree(events: seq<Event>)
    ensures var d := Run(true, events).d; d.raw && d.read == Low64(d.sent + d.dropped)
  {
    RunConserves(true, events);
    var s := Run(true, events);
    LostAtMost(s.fates);
    StaysRaw(true, events);
    hide Run, Lost, Balanced, UniqueIds, Low64;
    Low64Sum(|s.fates| - Lost(s.fates), Lost(s.fates));
  }

  lemma Low64Sum(x: nat, y: nat)
    ensures Low64(Low64(x) + Low64(y)) == Low64(x + y)
  {
  }

  lemma {:induction false} StaysRaw(raw: bool, events: seq<Event>)
    ensures Run(raw, events).d.raw == raw
  {
    if events != [] {
      StaysRaw(raw, events[..|events| - 1]);
      hide Dispatch;
      var s, e := Run(raw, events[..|events| - 1]), events[|events| - 1];
      if e.Read? {
        DispatchCounts(s.d, e.p, e.now);
      }
    }
  }

  // ----- The chunk rule over runs -----

  /** An event that leaves the worker list and the pointer where they are: small
      packets, the sessions at work on the queues, packets of a running chunk. */
  predicate Calm(s: System, e: Event) {
    !e.Register? && !e.Unregister? && Step(s, e).d.rrIndex == s.d.rrIndex
  }

  ghost predicate AllCalm(raw: bool, before: seq<Event>, middle: seq<Event>) {
    forall i :: 0 <= i < |middle| ==> Calm(Run(raw, before + middle[..i]), middle[i])
  }

  predicate SameIds(ws: seq<Slot>, vs: seq<Slot>) {
    |ws| == |vs| && forall i :: 0 <= i < |ws| ==> ws[i].id == vs[i].id
  }

  lemma CalmKeepsIds(s: System, e: Event)
    requires Calm(s, e)
    ensures SameIds(Step(s, e).d.workers, s.d.workers)
  {
    if e.Read? && Enabled(s, e) {
      var k := DispatchMovesOne(s.d, e.p, e.now);
      hide Dispatch;
    }
  }

  lemma CalmPrefix(raw: bool, before: seq<Event>, middle: seq<Event>)
    requires middle != [] && AllCalm(raw, before, middle)
    ensures var n := |middle| - 1;
            AllCalm(raw, before, middle[..n]) && Calm(Run(raw, before + middle[..n]), middle[n])
  {
    hide Run, Calm;
    var front := middle[..|middle| - 1];
    forall i | 0 <= i < |front| ensures Calm(Run(raw, before + front[..i]), front[i]) {
      assert front[..i] == middle[..i];
    }
  }

  lemma {:induction false} CalmRunKeepsPointer(raw: bool, before: seq<Event>, middle: seq<Event>)
    requires AllCalm(raw, before, middle)
    ensures var s, t := Run(raw, before), Run(raw, before + middle);
            SameIds(t.d.workers, s.d.workers) && t.d.rrIndex == s.d.rrIndex
  {
    if middle == [] {
      assert before + middle == before;
    } else {
      var n := |middle| - 1;
      var front := middle[..n];
      hide Run, Calm, Step, AllCalm;
      CalmPrefix(raw, before, middle);
      CalmRunKeepsPointer(raw, before, front);
      assert before + middle == (before + front) + [middle[n]];
      RunAppend(raw, before + front, middle[n]);
      CalmKeepsPointer(Run(raw, before + front), middle[n]);
      CalmKeepsIds(Run(raw, before + front), middle[n]);
    }
  }

  lemma CalmKeepsPointer(s: System, e: Event)
    requires Calm(s, e)
    ensures Step(s, e).d.rrIndex == s.d.rrIndex
  {
  }

  lemma RunAppend(raw: bool, events: seq<Event>, e: Event)
    ensures Run(raw, events + [e]) == Step(Run(raw, events), e)
  {
  }

  /** The chunk rule in every run: after a data packet that completes a chunk, and
      whatever happens as long as the pointer stays where it was left, a data
      packet that no pause or dwell switch diverts goes back to the same worker
      only if all the other workers are full. */
  lemma ChunkRuleInRuns(raw: bool, before: seq<Event>, p: Packet, now: int, middle: seq<Event>, q: Packet, later: int)
    requires var s := Run(raw, before);
             && Enabled(s, Read(p, now)) && |s.d.workers| >= 2
             && Dispatch(s.d, p, now).1.Sent? && Dispatch(s.d, p, now).0.rrCount == 0
    requires AllCalm(raw, before + [Read(p, now)], middle)
    requires var t := Run(raw, before + [Read(p, now)] + middle).d;
             && t.workers != [] && AfterDwell(AfterPause(CountRead(t), later), later).rrIndex == t.rrIndex
             && Dispatch(t, q, later).1 == Dispatch(Run(raw, before).d, p, now).1
    ensures var t, id := Run(raw, before + [Read(p, now)] + middle).d, Dispatch(Run(raw, before).d, p, now).1.id;
            forall m :: 0 <= m < |t.workers| && t.workers[m].id != id ==> |t.workers[m].send| >= SEND_CAP
  {
    var s := Run(raw, before);
    var k := CompletionMovesPointer(s.d, p, now);
    RunConserves(raw, before);
    assert UniqueIds(s) && Unique(s.d.workers);
    RunAppend(raw, before, Read(p, now));
    assert Run(raw, before + [Read(p, now)]).d == Dispatch(s.d, p, now).0;
    CalmRunKeepsPointer(raw, before + [Read(p, now)], middle);
    var t := Run(raw, before + [Read(p, now)] + middle).d;
    var u := AfterDwell(AfterPause(CountRead(t), later), later);
    hide Run, Dispatch, AfterDwell, AfterPause, CountRead, Step, Conserved, AllCalm, Unique;
    NextChunkMovesOn(u, t, q, later, k);
  }
}
