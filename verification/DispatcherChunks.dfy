/** The chunk discipline of the dispatcher over every run. */
module DispatcherChunks {
  import opened Wrappers
  import opened Words
  import opened Dispatcher
  import opened DispatcherRuns

  /** The current chunk: the last rrCount data sends, all to workers[rrIndex],
      none 15 ms or more after chunkStartTs and, if the clock has been steady,
      none before it. */
  ghost predicate Chunk(d: State, sends: seq<DataSend>, steady: bool, clock: int) {
    && d.rrIndex < (if d.workers == [] then 1 else |d.workers|)
    && d.rrCount <= 63 && d.rrCount <= |sends|
    && d.chunkStartTs >= 0 && (steady ==> d.chunkStartTs <= clock)
    && (d.rrCount > 0 ==> d.workers != [] && d.chunkStartTs > 0)
    && forall j :: |sends| - d.rrCount <= j < |sends| ==> InChunk(d, sends[j], steady)
  }

  ghost predicate InChunk(d: State, x: DataSend, steady: bool) {
    && d.rrIndex < |d.workers| && x.id == d.workers[d.rrIndex].id
    && x.at - d.chunkStartTs < MAX_DWELL
    && (steady ==> d.chunkStartTs <= x.at)
  }

  /** The worker pointer after the pause and dwell rules. */
  function Ready(d: State, now: int): State
    requires d.workers != []
  {
    AfterDwell(AfterPause(CountRead(d), now), now)
  }

  lemma PauseKeeps(d: State, sends: seq<DataSend>, steady: bool, clock: int, now: int)
    requires Chunk(d, sends, steady, clock) && d.workers != [] && now > 0
    ensures Chunk(AfterPause(CountRead(d), now), sends, steady && clock <= now, now)
  {
  }

  lemma DwellKeeps(d: State, sends: seq<DataSend>, steady: bool, now: int)
    requires Chunk(d, sends, steady, now) && d.workers != [] && now > 0
    ensures Chunk(AfterDwell(d, now), sends, steady, now)
    ensures AfterDwell(d, now).chunkStartTs > 0 && now - AfterDwell(d, now).chunkStartTs < MAX_DWELL
  {
  }

  lemma PlaceKeeps(d: State, sends: seq<DataSend>, steady: bool, p: Packet, now: int)
    requires Chunk(d, sends, steady, now) && d.workers != [] && now > 0
    requires d.chunkStartTs > 0 && now - d.chunkStartTs < MAX_DWELL
    ensures var (t, f) := PlaceData(d, p, now);
            Chunk(t, if f.Sent? then sends + [DataSend(f.id, now)] else sends, steady, now)
  {
    var nw := |d.workers|;
    Wrap(nw, d.rrIndex);
    Wrap(nw, d.rrIndex + 1);
    SearchInRange(SendFree(d.workers), d.rrIndex, 0);
    hide Search, SendFree;
    var (t, f) := PlaceData(d, p, now);
    if f.Sent? {
      var longer := sends + [DataSend(f.id, now)];
      forall j | |longer| - t.rrCount <= j < |longer|
        ensures InChunk(t, longer[j], steady)
      {
        if j < |sends| {
          assert InChunk(d, sends[j], steady);
        }
      }
    }
  }

  lemma PrioKeeps(d: State, sends: seq<DataSend>, steady: bool, now: int, k: nat, p: Packet)
    requires Chunk(d, sends, steady, now) && k < |d.workers|
    ensures Chunk(d.(workers := PutPrio(d.workers, k, p)), sends, steady, now)
  {
  }

  /** Fields the discipline does not speak of may change. */
  lemma SameChunk(d: State, e: State, sends: seq<DataSend>, steady: bool, clock: int)
    requires Chunk(d, sends, steady, clock)
    requires e.rrIndex == d.rrIndex && e.rrCount == d.rrCount && e.chunkStartTs == d.chunkStartTs
    requires |e.workers| >= |d.workers| && forall i :: 0 <= i < |d.workers| ==> e.workers[i].id == d.workers[i].id
    ensures Chunk(e, sends, steady, clock)
  {
  }

  lemma ReadKeepsChunk(d: State, sends: seq<DataSend>, steady: bool, clock: int, p: Packet, now: int)
    requires Chunk(d, sends, steady, clock) && now > 0
    ensures var (t, f) := Dispatch(d, p, now);
            Chunk(t, if f.Sent? then sends + [DataSend(f.id, now)] else sends, steady && clock <= now, now)
  {
    var st := steady && clock <= now;
    if d.workers != [] {
      var a := AfterPause(CountRead(d), now);
      PauseKeeps(d, sends, steady, clock, now);
      DwellKeeps(a, sends, st, now);
      PlaceKeeps(AfterDwell(a, now), sends, st, p, now);
      var idx := a.rrIndex % |a.workers|;
      var prio := Search(PrioFree(a.workers), idx, 0);
      SearchInRange(PrioFree(a.workers), idx, 0);
      hide Search, PrioFree, PutPrio, AfterPause, AfterDwell, PlaceData, Chunk;
      if p.size <= PRIO_THRESHOLD && prio.Some? {
        PrioKeeps(a, sends, st, now, prio.value, p);
        var b := a.(workers := PutPrio(a.workers, prio.value, p));
        SameChunk(b, CountSent(b), sends, st, now);
      }
    } else {
      var r := CountRead(d);
      assert CountDropped(r).rrCount == 0;
    }
  }

  lemma UnregisterKeepsChunk(d: State, k: nat, sends: seq<DataSend>, steady: bool, clock: int)
    requires Chunk(d, sends, steady, clock) && k < |d.workers|
    ensures Chunk(Unregistered(d, k), sends, steady, clock)
  {
  }

  lemma {:induction false} RunKeepsChunk(raw: bool, events: seq<Event>)
    ensures var s := Run(raw, events); Chunk(s.d, s.sends, s.steady, s.clock)
  {
    if events != [] {
      var s, e := Run(raw, events[..|events| - 1]), events[|events| - 1];
      RunKeepsChunk(raw, events[..|events| - 1]);
      if Enabled(s, e) {
        var t := Apply(s, e);
        hide Dispatch, Unregistered, Chunk;
        match e
        case Read(p, now) => ReadKeepsChunk(s.d, s.sends, s.steady, s.clock, p, now);
        case Unregister(k) => UnregisterKeepsChunk(s.d, k, s.sends, s.steady, s.clock);
        case _ => SameChunk(s.d, t.d, s.sends, s.steady, s.clock);
      }
    }
  }

  /** In every run the next data packet that stays on the current worker leaves
      less than 15 ms after the chunk's start, and, on a steady clock, less than
      15 ms after each earlier send of the same chunk. */
  lemma DwellIsBounded(raw: bool, events: seq<Event>, now: int)
    requires Run(raw, events).d.workers != [] && now > 0
    ensures var s := Run(raw, events);
            var d := Ready(s.d, now);
            && d.rrIndex < |d.workers| && d.rrCount <= 63 && d.rrCount <= |s.sends|
            && now - d.chunkStartTs < 15
            && forall j :: |s.sends| - d.rrCount <= j < |s.sends| ==>
                 && s.sends[j].id == d.workers[d.rrIndex].id
                 && (s.steady && s.clock <= now ==> now - s.sends[j].at < 15)
  {
    RunKeepsChunk(raw, events);
    var s := Run(raw, events);
    var st := s.steady && s.clock <= now;
    PauseKeeps(s.d, s.sends, s.steady, s.clock, now);
    DwellKeeps(AfterPause(CountRead(s.d), now), s.sends, st, now);
    var d := Ready(s.d, now);
    forall j | |s.sends| - d.rrCount <= j < |s.sends|
      ensures InChunk(d, s.sends[j], st)
    {
    }
  }
}
