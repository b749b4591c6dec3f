/** How many packets go to one worker before the next one gets its turn, and when
    the turn is cut short. */
module DispatcherPacing {
  import opened Wrappers
  import opened Words
  import opened Dispatcher
  import opened DispatcherRuns
  import DispatcherChunks

  /** Packet sizes of one class, of which `chunk` in a row go to one worker. */
  predicate SizeClass(chunk: nat, size: nat) {
    || (chunk == 64 && size > 1100)
    || (chunk == 24 && 701 <= size <= 1100)
    || (chunk == 8 && 301 <= size <= 700)
    || (chunk == 3 && 101 <= size <= 300)
    || (chunk == 1 && size <= 100)
  }

  /** A small packet for which some priority queue has room. */
  ghost predicate GoesFirst(d: State, p: Packet) {
    p.size <= 128 && exists k :: 0 <= k < |d.workers| && |d.workers[k].prio| < 32
  }

  predicate HasRoom(d: State, k: nat) { k < |d.workers| && |d.workers[k].send| < 128 }

  /** More than 10 ms without a packet. */
  predicate Paused(d: State, now: int) { d.lastPktTime > 0 && now - d.lastPktTime > 10 }

  /** The turn began 15 ms ago or earlier. */
  predicate Dwelt(d: State, now: int) { d.chunkStartTs != 0 && now - d.chunkStartTs >= 15 }

  // ----- One packet -----

  lemma FirstIsFree(free: seq<bool>, idx: nat)
    requires idx < |free| && free[idx]
    ensures Search(free, idx, 0) == Some(idx)
  {
  }

  lemma DataNotFirst(d: State, p: Packet, now: int)
    requires d.workers != [] && !GoesFirst(d, p)
    ensures Dispatch(d, p, now) == PlaceData(AfterDwell(AfterPause(CountRead(d), now), now), p, now)
  {
    var a := AfterPause(CountRead(d), now);
    var idx := a.rrIndex % |a.workers|;
    SearchInRange(PrioFree(a.workers), idx, 0);
    hide Search, AfterPause, AfterDwell, PlaceData;
  }

  /** The pause and dwell rules together move the pointer by one or not at all. */
  lemma Readied(d: State, now: int)
    requires d.workers != [] && d.rrIndex < |d.workers| && now > 0
    ensures var r := AfterDwell(AfterPause(CountRead(d), now), now);
            && r.workers == d.workers && r.lastPktTime == now
            && (if Paused(d, now) || Dwelt(d, now)
                then r.rrIndex == (d.rrIndex + 1) % |d.workers| && r.rrCount == 0 && r.chunkStartTs == now
                else r.rrIndex == d.rrIndex && r.rrCount == d.rrCount
                     && r.chunkStartTs == if d.chunkStartTs == 0 then now else d.chunkStartTs)
  {
  }

  lemma Placed(r: State, p: Packet, now: int, chunk: nat)
    requires r.rrIndex < |r.workers| && SizeClass(chunk, p.size) && HasRoom(r, r.rrIndex)
    ensures var (t, f) := PlaceData(r, p, now);
            && f == Sent(r.workers[r.rrIndex].id) && t.lastPktTime == r.lastPktTime
            && (if r.rrCount + 1 >= chunk
                then t.rrIndex == (r.rrIndex + 1) % |r.workers| && t.rrCount == 0 && t.chunkStartTs == now
                else t.rrIndex == r.rrIndex && t.rrCount == r.rrCount + 1 && t.chunkStartTs == r.chunkStartTs)
  {
    Wrap(|r.workers|, r.rrIndex);
    FirstIsFree(SendFree(r.workers), r.rrIndex);
    hide Search, SendFree;
  }

  /** One data packet, whatever went before: a pause of more than 10 ms, or a turn
      of 15 ms, passes the turn on to the next worker, once; if the worker whose
      turn it is has room the packet goes there, and the turn passes on with the
      64th, 24th, 8th, 3rd or 1st packet, according to size. */
  lemma TurnPasses(d: State, p: Packet, now: int, chunk: nat)
    requires d.rrIndex < |d.workers| && now > 0 && SizeClass(chunk, p.size) && !GoesFirst(d, p)
    requires HasRoom(d, if Paused(d, now) || Dwelt(d, now) then (d.rrIndex + 1) % |d.workers| else d.rrIndex)
    ensures var moved := Paused(d, now) || Dwelt(d, now);
            var turn, count := if moved then (d.rrIndex + 1) % |d.workers| else d.rrIndex, if moved then 0 else d.rrCount;
            var (t, f) := Dispatch(d, p, now);
            && turn < |d.workers| && f == Sent(d.workers[turn].id) && t.lastPktTime == now
            && (if count + 1 >= chunk then t.rrIndex == (turn + 1) % |d.workers| && t.rrCount == 0
                else t.rrIndex == turn && t.rrCount == count + 1)
            && t.chunkStartTs == if moved || count + 1 >= chunk || d.chunkStartTs == 0 then now else d.chunkStartTs
  {
    DataNotFirst(d, p, now);
    Readied(d, now);
    Wrap(|d.workers|, d.rrIndex + 1);
    Placed(AfterDwell(AfterPause(CountRead(d), now), now), p, now, chunk);
    hide Dispatch, PlaceData, AfterDwell, AfterPause, CountRead, SizeClass, Paused, Dwelt;
  }

  /** A small packet goes to the first worker from the turn on whose priority
      queue has room, and takes nobody's turn. */
  lemma SmallGoesFirst(d: State, p: Packet, now: int)
    requires d.rrIndex < |d.workers| && GoesFirst(d, p)
    ensures var turn := if Paused(d, now) then (d.rrIndex + 1) % |d.workers| else d.rrIndex;
            var (t, f) := Dispatch(d, p, now);
            && turn < |d.workers| && t.rrIndex == turn && t.lastPktTime == now
            && t.rrCount == (if Paused(d, now) then 0 else d.rrCount)
            && t.chunkStartTs == (if Paused(d, now) then now else d.chunkStartTs)
            && exists j :: 0 <= j < |d.workers| && FirstPrio(d, turn, j)
                           && f == Prioritized(d.workers[Around(|d.workers|, turn, j)].id)
  {
    var n := |d.workers|;
    var turn := if Paused(d, now) then (d.rrIndex + 1) % n else d.rrIndex;
    Wrap(n, d.rrIndex + 1);
    DispatchedFirst(d, p, now, turn);
    PrioFound(d, turn);
    hide Dispatch, GoesFirst, FirstPrio, Around, Search, PrioFree;
  }

  lemma DispatchedFirst(d: State, p: Packet, now: int, turn: nat)
    requires d.rrIndex < |d.workers| && GoesFirst(d, p)
    requires turn == if Paused(d, now) then (d.rrIndex + 1) % |d.workers| else d.rrIndex
    requires turn < |d.workers|
    ensures var found := Search(PrioFree(d.workers), turn, 0);
            var (t, f) := Dispatch(d, p, now);
            && found.Some? && found.value < |d.workers| && f == Prioritized(d.workers[found.value].id)
            && t.rrIndex == turn && t.lastPktTime == now
            && t.rrCount == (if Paused(d, now) then 0 else d.rrCount)
            && t.chunkStartTs == (if Paused(d, now) then now else d.chunkStartTs)
  {
    PrioFound(d, turn);
    Wrap(|d.workers|, turn);
    SearchInRange(PrioFree(d.workers), turn, 0);
    hide Search, PrioFree, PlaceData, AfterDwell;
  }

  lemma PrioFound(d: State, turn: nat)
    requires turn < |d.workers| && exists k :: 0 <= k < |d.workers| && |d.workers[k].prio| < 32
    ensures var found := Search(PrioFree(d.workers), turn, 0);
            found.Some? && exists j :: 0 <= j < |d.workers| && FirstPrio(d, turn, j)
                                       && found.value == Around(|d.workers|, turn, j)
  {
    var n, free := |d.workers|, PrioFree(d.workers);
    assert forall k :: 0 <= k < n ==> free[k] == (|d.workers[k].prio| < 32);
    SearchFailsExactly(free, turn);
    SearchFinds(free, turn, 0);
    SearchInRange(free, turn, 0);
    hide Search, PrioFree, Around;
    var j :| 0 <= j < n && Search(free, turn, 0).value == Around(n, turn, j)
      && forall m :: 0 <= m < j ==> !free[Around(n, turn, m)];
    assert FirstPrio(d, turn, j);
  }

  /** `j` places after the turn is the first priority queue with room. */
  ghost predicate FirstPrio(d: State, turn: nat, j: nat)
    requires turn < |d.workers|
  {
    && j < |d.workers| && |d.workers[Around(|d.workers|, turn, j)].prio| < 32
    && forall m :: 0 <= m < j ==> |d.workers[Around(|d.workers|, turn, m)].prio| >= 32
  }

  /** When the worker whose turn it is is full, the packet goes to the next that
      is not, which has had the first packet of a new turn then; when all are
      full, the next worker begins a new turn. */
  lemma FullTurnPasses(d: State, p: Packet, now: int)
    requires d.rrIndex < |d.workers| && now > 0 && !GoesFirst(d, p) && !Paused(d, now) && !Dwelt(d, now)
    requires !HasRoom(d, d.rrIndex)
    ensures var (t, f) := Dispatch(d, p, now);
            && t.lastPktTime == now
            && (if exists k :: HasRoom(d, k)
                then t.rrIndex < |d.workers| && HasRoom(d, t.rrIndex) && f == Sent(d.workers[t.rrIndex].id)
                     && t.rrCount == 1 && t.chunkStartTs == now
                     && exists j :: 0 < j < |d.workers| && NextRoom(d, j) && t.rrIndex == Around(|d.workers|, d.rrIndex, j)
                else f == AllFull && t.rrIndex == (d.rrIndex + 1) % |d.workers| && t.rrCount == 0)
  {
    hide *;
    DataNotFirst(d, p, now);
    Readied(d, now);
    RoomFound(d);
    PlacedElsewhere(AfterDwell(AfterPause(CountRead(d), now), now), p, now);
  }

  lemma RoomFound(d: State)
    requires d.rrIndex < |d.workers| && !HasRoom(d, d.rrIndex)
    ensures var found := Search(SendFree(d.workers), d.rrIndex, 0);
            && (found.Some? <==> exists k :: HasRoom(d, k))
            && (found.Some? ==>
                  found.value != d.rrIndex && HasRoom(d, found.value)
                  && exists j :: 0 < j < |d.workers| && NextRoom(d, j) && found.value == Around(|d.workers|, d.rrIndex, j))
  {
    var n, free := |d.workers|, SendFree(d.workers);
    SearchFinds(free, d.rrIndex, 0);
    SearchFailsExactly(free, d.rrIndex);
    SearchInRange(free, d.rrIndex, 0);
    assert forall k :: 0 <= k < n ==> free[k] == HasRoom(d, k);
    hide Search, SendFree, HasRoom;
    if Search(free, d.rrIndex, 0).Some? {
      var j :| 0 <= j < n && Search(free, d.rrIndex, 0).value == Around(n, d.rrIndex, j)
        && forall m :: 0 <= m < j ==> !free[Around(n, d.rrIndex, m)];
      assert NextRoom(d, j);
    }
  }

  lemma PlacedElsewhere(r: State, p: Packet, now: int)
    requires r.rrIndex < |r.workers|
    requires Search(SendFree(r.workers), r.rrIndex, 0) != Some(r.rrIndex)
    ensures var found := Search(SendFree(r.workers), r.rrIndex, 0);
            var (t, f) := PlaceData(r, p, now);
            && t.lastPktTime == r.lastPktTime
            && (if found.Some?
                then found.value < |r.workers| && f == Sent(r.workers[found.value].id)
                     && t.rrIndex == found.value && t.rrCount == 1 && t.chunkStartTs == now
                else f == AllFull && t.rrIndex == (r.rrIndex + 1) % |r.workers| && t.rrCount == 0)
  {
    Wrap(|r.workers|, r.rrIndex);
    SearchInRange(SendFree(r.workers), r.rrIndex, 0);
    hide Search, SendFree, PutSend, ChunkSizeFor;
  }

  /** The first `j` workers from the turn on are full. */
  ghost predicate NextRoom(d: State, j: nat)
    requires d.rrIndex < |d.workers|
  {
    forall m :: 0 <= m < j ==> !HasRoom(d, Around(|d.workers|, d.rrIndex, m))
  }

  /** In every run a new worker can join, with empty queues, behind the others; the
      turn goes on. */
  lemma JoinsAtTheEnd(raw: bool, events: seq<Event>, id: nat)
    requires id !in Run(raw, events).used
    ensures var d, t := Run(raw, events).d, Run(raw, events + [Register(id)]).d;
            && |t.workers| == |d.workers| + 1 && t.workers[|d.workers|] == Slot(id, [], [])
            && (forall i :: 0 <= i < |d.workers| ==> t.workers[i] == d.workers[i])
            && t.rrIndex == d.rrIndex && t.rrCount == d.rrCount
            && t.chunkStartTs == d.chunkStartTs && t.lastPktTime == d.lastPktTime
  {
    RunAppend(raw, events, Register(id));
    hide Run;
  }

  /** A worker that leaves ends the turn. Whoever stands at the pointer's place then
      is next: the same worker if one behind it has left, the following one if it
      or one before it has, the first when there is nobody at that place. */
  lemma LeavingEndsTurn(d: State, k: nat)
    requires k < |d.workers| && d.rrIndex < |d.workers| && |d.workers| >= 2
    ensures var t, n := Unregistered(d, k), |d.workers|;
            && |t.workers| == n - 1 && (forall i :: 0 <= i < n - 1 ==> t.workers[i] == d.workers[if i < k then i else i + 1])
            && t.rrCount == 0 && t.lastPktTime == d.lastPktTime && t.chunkStartTs == d.chunkStartTs
            && t.rrIndex == if d.rrIndex + 1 < n then d.rrIndex else 0
  {
    Wrap(|d.workers| - 1, 0);
    assert d.rrIndex == |d.workers| - 1 ==> d.rrIndex % (|d.workers| - 1) == 0 by { SelfModulo(|d.workers| - 1); }
  }

  lemma SelfModulo(n: nat)
    requires n > 0
    ensures n % n == 0
  {
  }

  // ----- Runs -----

  /** The data sends since an earlier point of the run. */
  function Since(s0: System, s: System): seq<DataSend> {
    if |s0.sends| <= |s.sends| then s.sends[|s0.sends|..] else []
  }

  /** When the current turn began: with the send that ended the turn before. */
  function TurnStart(s0: System, since: seq<DataSend>, chunk: nat): int
    requires chunk > 0
  {
    if since == [] then s0.d.chunkStartTs
    else
      var n := |since| - 1;
      var start := TurnStart(s0, since[..n], chunk);
      if (s0.d.rrCount + |since|) % chunk == 0 || start == 0 then since[n].at else start
  }

  /** Whose turn it is after `count` packets, the first of which was the
      rrCount-th of its turn. */
  function TurnOf(s0: System, count: nat, chunk: nat): (k: nat)
    requires s0.d.workers != [] && chunk > 0
    ensures k < |s0.d.workers|
  {
    Wrap(|s0.d.workers|, s0.d.rrIndex + (s0.d.rrCount + count) / chunk);
    (s0.d.rrIndex + (s0.d.rrCount + count) / chunk) % |s0.d.workers|
  }

  /** The clock reading of the last packet. */
  function LastRead(s0: System, s: System): int {
    if |s.stream| > |s0.stream| then s.clock else s0.d.lastPktTime
  }

  /** An event that gives the turns no reason to be cut short: a small packet that
      goes first, a data packet of the class whose worker has room, or a session
      at work; packets no more than 10 ms apart, turns shorter than 15 ms. */
  ghost predicate Smooth(s0: System, s: System, e: Event, chunk: nat)
    requires s0.d.workers != [] && 0 <= s0.d.rrCount < chunk
  {
    match e
    case Register(_) => false
    case Unregister(_) => false
    case Read(p, now) => Enabled(s, e) ==>
      var last, start := LastRead(s0, s), TurnStart(s0, Since(s0, s), chunk);
      && (last > 0 ==> now - last <= 10)
      && (GoesFirst(s.d, p)
          || (SizeClass(chunk, p.size) && HasRoom(s.d, TurnOf(s0, |Since(s0, s)|, chunk))
              && (start != 0 ==> now - start < 15)))
    case _ => true
  }

  ghost predicate AllSmooth(raw: bool, before: seq<Event>, middle: seq<Event>, chunk: nat)
    requires Run(raw, before).d.workers != [] && 0 <= Run(raw, before).d.rrCount < chunk
  {
    forall i :: 0 <= i < |middle| ==> Smooth(Run(raw, before), Run(raw, before + middle[..i]), middle[i], chunk)
  }

  /** The j-th data packet since went to the worker whose turn it was. */
  ghost predicate InTurn(s0: System, since: seq<DataSend>, chunk: nat)
    requires s0.d.workers != [] && chunk > 0
  {
    forall j :: 0 <= j < |since| ==> since[j].id == s0.d.workers[TurnOf(s0, j, chunk)].id
  }

  ghost predicate Paced(s0: System, s: System, chunk: nat)
    requires s0.d.workers != [] && 0 <= s0.d.rrCount < chunk
  {
    var since := Since(s0, s);
    && s0.sends <= s.sends && |s0.stream| <= |s.stream| && SameIds(s.d.workers, s0.d.workers)
    && s.d.rrIndex == TurnOf(s0, |since|, chunk) && s.d.rrCount == (s0.d.rrCount + |since|) % chunk
    && s.d.chunkStartTs == TurnStart(s0, since, chunk)
    && s.d.lastPktTime == LastRead(s0, s)
    && InTurn(s0, since, chunk)
  }

  /** One more packet: it ends its turn, or it does not. */
  lemma NextOfTurn(total: nat, chunk: nat)
    requires chunk > 0
    ensures var q, r := total / chunk, total % chunk;
            if r + 1 >= chunk then (total + 1) / chunk == q + 1 && (total + 1) % chunk == 0 && (q + 1) * chunk == total + 1
            else (total + 1) / chunk == q && (total + 1) % chunk == r + 1
  {
    var q, r := total / chunk, total % chunk;
    assert total == q * chunk + r;
    if r + 1 >= chunk {
      Quotient(total + 1, chunk, q + 1, 0);
    } else {
      Quotient(total + 1, chunk, q, r + 1);
    }
  }

  lemma Quotient(x: nat, m: nat, q: nat, r: nat)
    requires r < m && x == q * m + r
    ensures x / m == q && x % m == r
  {
    var p := x / m;
    assert x == p * m + x % m;
    if p < q {
      TimesAtMost(p + 1, q, m);
    } else if p > q {
      TimesAtMost(q + 1, p, m);
    }
  }

  lemma TimesAtMost(a: nat, b: nat, m: nat)
    requires a <= b
    ensures a * m <= b * m
  {
  }

  lemma NextPlace(n: nat, x: nat)
    requires n > 0
    ensures (x % n + 1) % n == (x + 1) % n
  {
    var q := x / n;
    if x % n + 1 < n {
      Quotient(x + 1, n, q, x % n + 1);
      Quotient(x % n + 1, n, 0, x % n + 1);
    } else {
      assert x + 1 == (q + 1) * n;
      Quotient(x + 1, n, q + 1, 0);
      Quotient(x % n + 1, n, 1, 0);
    }
  }

  /** Where the turn goes with one more data packet. */
  lemma NextTurn(s0: System, since: seq<DataSend>, x: DataSend, chunk: nat)
    requires s0.d.workers != [] && 0 <= s0.d.rrCount < chunk
    ensures var n, longer := |s0.d.workers|, since + [x];
            var turn, count := TurnOf(s0, |since|, chunk), (s0.d.rrCount + |since|) % chunk;
            var start := TurnStart(s0, since, chunk);
            && count < chunk
            && TurnOf(s0, |longer|, chunk) == (if count + 1 >= chunk then (turn + 1) % n else turn)
            && (s0.d.rrCount + |longer|) % chunk == (if count + 1 >= chunk then 0 else count + 1)
            && TurnStart(s0, longer, chunk) == if count + 1 >= chunk || start == 0 then x.at else start
  {
    hide *;
    var total, n := s0.d.rrCount + |since|, |s0.d.workers|;
    NextOfTurn(total, chunk);
    NextStart(s0, since, x, chunk);
    TurnIs(s0, |since|, chunk, total / chunk);
    TurnIs(s0, |since| + 1, chunk, (total + 1) / chunk);
    NextPlace(n, s0.d.rrIndex + total / chunk);
    NextOfTurnIs(total, chunk);
  }

  lemma NextOfTurnIs(total: nat, chunk: nat)
    requires chunk > 0
    ensures total % chunk < chunk
    ensures total % chunk + 1 < chunk <==> (total + 1) % chunk != 0
  {
    NextOfTurn(total, chunk);
  }

  lemma TurnIs(s0: System, count: nat, chunk: nat, q: nat)
    requires s0.d.workers != [] && chunk > 0 && q == (s0.d.rrCount + count) / chunk
    ensures TurnOf(s0, count, chunk) == (s0.d.rrIndex + q) % |s0.d.workers|
  {
  }

  lemma NextStart(s0: System, since: seq<DataSend>, x: DataSend, chunk: nat)
    requires chunk > 0
    ensures TurnStart(s0, since + [x], chunk)
         == if (s0.d.rrCount + |since| + 1) % chunk == 0 || TurnStart(s0, since, chunk) == 0 then x.at
            else TurnStart(s0, since, chunk)
  {
  }

  /** A data packet keeps the pace. */
  lemma DataKeepsPace(s0: System, s: System, p: Packet, now: int, chunk: nat)
    requires s0.d.workers != [] && 0 <= s0.d.rrCount < chunk && Paced(s0, s, chunk)
    requires Enabled(s, Read(p, now)) && Smooth(s0, s, Read(p, now), chunk) && !GoesFirst(s.d, p)
    ensures Paced(s0, Step(s, Read(p, now)), chunk)
  {
    var d, since := s.d, Since(s0, s);
    hide *;
    SmoothMeans(s0, s, p, now, chunk);
    PacedMeans(s0, s, chunk);
    TurnPasses(d, p, now, chunk);
    var k := DispatchMovesOne(d, p, now);
    PutKeepsIds(d.workers, k, p);
    var (t, f) := Dispatch(d, p, now);
    assert SameIds(t.workers, d.workers);
    NextTurn(s0, since, DataSend(f.id, now), chunk);
    OneMoreIsPaced(s0, s, p, now, chunk);
  }

  lemma SmoothMeans(s0: System, s: System, p: Packet, now: int, chunk: nat)
    requires s0.d.workers != [] && 0 <= s0.d.rrCount < chunk && Paced(s0, s, chunk)
    requires Enabled(s, Read(p, now)) && Smooth(s0, s, Read(p, now), chunk) && !GoesFirst(s.d, p)
    ensures now > 0 && s.d.rrIndex < |s.d.workers| && !Paused(s.d, now) && !Dwelt(s.d, now)
    ensures SizeClass(chunk, p.size) && HasRoom(s.d, s.d.rrIndex)
  {
  }

  lemma PacedMeans(s0: System, s: System, chunk: nat)
    requires s0.d.workers != [] && 0 <= s0.d.rrCount < chunk && Paced(s0, s, chunk)
    ensures var since := Since(s0, s);
            && s.d.rrIndex == TurnOf(s0, |since|, chunk) && s.d.rrCount == (s0.d.rrCount + |since|) % chunk
            && s.d.chunkStartTs == TurnStart(s0, since, chunk) && |s.d.workers| == |s0.d.workers|
  {
  }

  /** The bookkeeping of one more data packet. */
  lemma OneMoreIsPaced(s0: System, s: System, p: Packet, now: int, chunk: nat)
    requires s0.d.workers != [] && 0 <= s0.d.rrCount < chunk && Paced(s0, s, chunk) && Enabled(s, Read(p, now))
    requires var (t, f) := Dispatch(s.d, p, now);
             var since, n := Since(s0, s), |s0.d.workers|;
             && f.Sent? && SameIds(t.workers, s.d.workers) && t.lastPktTime == now
             && s.d.rrIndex < |s.d.workers| && f.id == s.d.workers[s.d.rrIndex].id
             && t.rrIndex == TurnOf(s0, |since| + 1, chunk) && t.rrCount == (s0.d.rrCount + |since| + 1) % chunk
             && t.chunkStartTs == TurnStart(s0, since + [DataSend(f.id, now)], chunk)
    ensures Paced(s0, Step(s, Read(p, now)), chunk)
  {
    hide Dispatch, TurnStart, TurnOf, InTurn;
    var since := Since(s0, s);
    var x := DataSend(Dispatch(s.d, p, now).1.id, now);
    var u := Step(s, Read(p, now));
    assert u.sends == s.sends + [x] && Since(s0, u) == since + [x];
    OneMoreInTurn(s0, since, x, chunk);
  }

  lemma PutKeepsIds(ws: seq<Slot>, k: nat, p: Packet)
    requires k < |ws|
    ensures SameIds(PutSend(ws, k, p), ws) && SameIds(PutPrio(ws, k, p), ws)
  {
  }

  lemma OneMoreInTurn(s0: System, since: seq<DataSend>, x: DataSend, chunk: nat)
    requires s0.d.workers != [] && chunk > 0 && InTurn(s0, since, chunk)
    requires x.id == s0.d.workers[TurnOf(s0, |since|, chunk)].id
    ensures InTurn(s0, since + [x], chunk)
  {
  }

  lemma SmallKeepsPace(s0: System, s: System, p: Packet, now: int, chunk: nat)
    requires s0.d.workers != [] && 0 <= s0.d.rrCount < chunk && Paced(s0, s, chunk)
    requires Enabled(s, Read(p, now)) && Smooth(s0, s, Read(p, now), chunk) && GoesFirst(s.d, p)
    ensures Paced(s0, Step(s, Read(p, now)), chunk)
  {
    var d := s.d;
    hide *;
    SmoothNotPaused(s0, s, p, now, chunk);
    PacedMeans(s0, s, chunk);
    SmallGoesFirst(d, p, now);
    var k := DispatchMovesOne(d, p, now);
    PutKeepsIds(d.workers, k, p);
    assert SameIds(Dispatch(d, p, now).0.workers, d.workers);
    NoMoreIsPaced(s0, s, p, now, chunk);
  }

  lemma SmoothNotPaused(s0: System, s: System, p: Packet, now: int, chunk: nat)
    requires s0.d.workers != [] && 0 <= s0.d.rrCount < chunk && Paced(s0, s, chunk)
    requires Enabled(s, Read(p, now)) && Smooth(s0, s, Read(p, now), chunk)
    ensures s.d.rrIndex < |s.d.workers| && !Paused(s.d, now)
  {
  }

  /** The bookkeeping of a packet that takes nobody's turn. */
  lemma NoMoreIsPaced(s0: System, s: System, p: Packet, now: int, chunk: nat)
    requires s0.d.workers != [] && 0 <= s0.d.rrCount < chunk && Paced(s0, s, chunk) && Enabled(s, Read(p, now))
    requires var (t, f) := Dispatch(s.d, p, now);
             && !f.Sent? && SameIds(t.workers, s.d.workers) && t.lastPktTime == now
             && t.rrIndex == s.d.rrIndex && t.rrCount == s.d.rrCount && t.chunkStartTs == s.d.chunkStartTs
    ensures Paced(s0, Step(s, Read(p, now)), chunk)
  {
    hide Dispatch, TurnStart, TurnOf, InTurn;
    var u := Step(s, Read(p, now));
    assert u.sends == s.sends && Since(s0, u) == Since(s0, s);
  }

  lemma EventKeepsPace(s0: System, s: System, e: Event, chunk: nat)
    requires s0.d.workers != [] && 0 <= s0.d.rrCount < chunk && Paced(s0, s, chunk)
    requires Smooth(s0, s, e, chunk)
    ensures Paced(s0, Step(s, e), chunk)
  {
    hide Dispatch, GoesFirst, TurnStart, TurnOf, SizeClass;
    if e.Read? && Enabled(s, e) {
      hide Smooth, Paced;
      if GoesFirst(s.d, e.p) {
        SmallKeepsPace(s0, s, e.p, e.now, chunk);
      } else {
        DataKeepsPace(s0, s, e.p, e.now, chunk);
      }
    }
  }

  /** The turns of every run: from any point on, as long as nothing cuts them
      short, data packets of one class go to the same worker until it has had its
      64, 24, 8, 3 or 1 of them, then to the one behind it, and so on around. */
  lemma {:induction false} TurnsInRuns(raw: bool, before: seq<Event>, middle: seq<Event>, chunk: nat)
    requires Run(raw, before).d.workers != [] && Run(raw, before).d.rrCount < chunk
    requires AllSmooth(raw, before, middle, chunk)
    ensures Paced(Run(raw, before), Run(raw, before + middle), chunk)
  {
    hide *;
    var s0 := Run(raw, before);
    if middle == [] {
      RunStartsPaced(raw, before, chunk);
      assert before + middle == before;
    } else {
      var n := |middle| - 1;
      var front := middle[..n];
      SmoothBefore(raw, before, middle, chunk);
      TurnsInRuns(raw, before, front, chunk);
      assert before + middle == (before + front) + [middle[n]];
      RunAppend(raw, before + front, middle[n]);
      EventKeepsPace(s0, Run(raw, before + front), middle[n], chunk);
    }
  }

  lemma RunStartsPaced(raw: bool, before: seq<Event>, chunk: nat)
    requires Run(raw, before).d.workers != [] && Run(raw, before).d.rrCount < chunk
    ensures Paced(Run(raw, before), Run(raw, before), chunk)
  {
    DispatcherChunks.RunKeepsChunk(raw, before);
    hide Run, Paced;
    StartsPaced(Run(raw, before), chunk);
  }

  lemma SmoothBefore(raw: bool, before: seq<Event>, middle: seq<Event>, chunk: nat)
    requires Run(raw, before).d.workers != [] && Run(raw, before).d.rrCount < chunk
    requires middle != [] && AllSmooth(raw, before, middle, chunk)
    ensures var n := |middle| - 1;
            && AllSmooth(raw, before, middle[..n], chunk)
            && Smooth(Run(raw, before), Run(raw, before + middle[..n]), middle[n], chunk)
  {
    hide Run, Smooth;
    var front := middle[..|middle| - 1];
    forall i | 0 <= i < |front| ensures Smooth(Run(raw, before), Run(raw, before + front[..i]), front[i], chunk) {
      assert front[..i] == middle[..i];
    }
  }

  lemma StartsPaced(s0: System, chunk: nat)
    requires s0.d.rrIndex < |s0.d.workers| && s0.d.rrCount < chunk
    ensures Paced(s0, s0, chunk)
  {
  }
}
