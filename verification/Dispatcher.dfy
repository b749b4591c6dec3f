/** The packet dispatcher (internal/core/dispatcher.go): adaptive-chunk
    round-robin over workers that each have two bounded queues. */
module Dispatcher {
  import opened Wrappers
  import opened Words

  const SEND_CAP: nat := 128       // workerSendBuf
  const PRIO_CAP: nat := 32        // prioBuf
  const PRIO_THRESHOLD: nat := 128
  const MAX_DWELL: int := 15       // milliseconds
  const MAX_PAUSE: int := 10       // milliseconds

  /** Packets read from the TUN or the loopback, and the sessions' own keepalives. */
  datatype Packet = Traffic(id: nat, size: nat) | Keepalive(size: nat)

  /** How many packets of a size go to one worker in a row. */
  function ChunkSizeFor(size: nat): (n: nat)
    ensures 1 <= n <= 64
  {
    if size > 1100 then 64
    else if size >= 701 then 24
    else if size >= 301 then 8
    else if size >= 101 then 3
    else 1
  }

  // ----- Specification -----

  datatype Slot = Slot(id: nat, send: seq<Packet>, prio: seq<Packet>)

  datatype State = State(workers: seq<Slot>, rrIndex: nat, rrCount: nat, lastPktTime: int, chunkStartTs: int,
                         raw: bool, read: Word64, sent: Word64, dropped: Word64)

  datatype Fate = Sent(id: nat) | Prioritized(id: nat) | NoWorkers | AllFull

  /** The worker `i` places after `idx` in cyclic order. */
  function Around(n: nat, idx: nat, i: nat): (a: nat)
    requires n > 0
    ensures a < n
    ensures idx < n && i < n ==> a == if idx + i < n then idx + i else idx + i - n
  {
    Wrap(n, idx + i);
    (idx + i) % n
  }

  lemma Wrap(n: nat, x: nat)
    requires n > 0
    ensures x % n < n
    ensures x < 2 * n ==> x % n == if x < n then x else x - n
  {
  }

  /** The first free worker in the cyclic order idx + i, idx + i + 1, ... */
  function Search(free: seq<bool>, idx: nat, i: nat): Option<nat>
    requires free != []
    decreases |free| - i
  {
    if i >= |free| then None
    else if free[Around(|free|, idx, i)] then Some(Around(|free|, idx, i))
    else Search(free, idx, i + 1)
  }

  function SendFree(ws: seq<Slot>): (f: seq<bool>)
    ensures |f| == |ws|
  {
    seq(|ws|, i requires 0 <= i < |ws| => |ws[i].send| < SEND_CAP)
  }

  function PrioFree(ws: seq<Slot>): (f: seq<bool>)
    ensures |f| == |ws|
  {
    seq(|ws|, i requires 0 <= i < |ws| => |ws[i].prio| < PRIO_CAP)
  }

  function PutSend(ws: seq<Slot>, k: nat, p: Packet): seq<Slot>
    requires k < |ws|
  {
    ws[k := ws[k].(send := ws[k].send + [p])]
  }

  function PutPrio(ws: seq<Slot>, k: nat, p: Packet): seq<Slot>
    requires k < |ws|
  {
    ws[k := ws[k].(prio := ws[k].prio + [p])]
  }

  function Advanced(s: State, now: int): State
    requires s.workers != []
  {
    s.(rrIndex := (s.rrIndex + 1) % |s.workers|, rrCount := 0, chunkStartTs := now)
  }

  /** A pause of more than 10 ms starts a new chunk on the next worker. */
  function AfterPause(s: State, now: int): (t: State)
    requires s.workers != []
    ensures t == s.(rrIndex := t.rrIndex, rrCount := t.rrCount, lastPktTime := now, chunkStartTs := t.chunkStartTs)
  {
    var t := s.(lastPktTime := now);
    if s.lastPktTime > 0 && now - s.lastPktTime > MAX_PAUSE then Advanced(t, now) else t
  }

  /** So does a chunk that has lasted 15 ms. */
  function AfterDwell(s: State, now: int): (t: State)
    requires s.workers != []
    ensures t == s.(rrIndex := t.rrIndex, rrCount := t.rrCount, chunkStartTs := t.chunkStartTs)
  {
    if s.chunkStartTs == 0 then s.(chunkStartTs := now)
    else if now - s.chunkStartTs >= MAX_DWELL then Advanced(s, now)
    else s
  }

  function CountSent(s: State): (t: State)
    ensures t.workers == s.workers && t == s.(sent := t.sent)
  {
    if s.raw then s.(sent := Low64(s.sent + 1)) else s
  }

  function CountDropped(s: State): (t: State)
    ensures t.workers == s.workers && t == s.(dropped := t.dropped)
  {
    if s.raw then s.(dropped := Low64(s.dropped + 1)) else s
  }

  function CountRead(s: State): (t: State)
    ensures t.workers == s.workers && t == s.(read := t.read)
  {
    if s.raw then s.(read := Low64(s.read + 1)) else s
  }


  /** Every queue was full: point at the next worker. */
  function GaveUp(s: State, idx: nat): (t: State)
    requires s.workers != []
    ensures t == s.(rrIndex := t.rrIndex, rrCount := t.rrCount)
  {
    s.(rrIndex := (idx + 1) % |s.workers|, rrCount := 0)
  }

  /** The chunk bookkeeping after worker `k` took a packet meant for `idx`. */
  function Booked(s: State, k: nat, idx: nat, chunk: nat, now: int): (t: State)
    requires s.workers != []
    ensures t == s.(rrIndex := t.rrIndex, rrCount := t.rrCount, chunkStartTs := t.chunkStartTs)
  {
    if k != idx then s.(rrIndex := k, rrCount := 1, chunkStartTs := now)
    else if s.rrCount + 1 >= chunk then
      s.(rrIndex := (idx + 1) % |s.workers|, rrCount := 0, chunkStartTs := now)
    else s.(rrCount := s.rrCount + 1)
  }

  /** The data queue: the current worker if it has room, else the next that has. */
  function PlaceData(s: State, p: Packet, now: int): (State, Fate)
    requires s.workers != []
  {
    var nw := |s.workers|;
    var idx := s.rrIndex % nw;
    match Search(SendFree(s.workers), idx, 0)
    case None => (CountDropped(GaveUp(s, idx)), AllFull)
    case Some(k) =>
      SearchInRange(SendFree(s.workers), idx, 0);
      (CountSent(Booked(s.(workers := PutSend(s.workers, k, p)), k, idx, ChunkSizeFor(p.size), now)),
       Sent(s.workers[k].id))
  }

  /** One packet of readLoop. */
  function Dispatch(s: State, p: Packet, now: int): (State, Fate) {
    var r := CountRead(s);
    if r.workers == [] then (CountDropped(r), NoWorkers)
    else
      var a := AfterPause(r, now);
      var idx := a.rrIndex % |a.workers|;
      var prio := Search(PrioFree(a.workers), idx, 0);
      if p.size <= PRIO_THRESHOLD && prio.Some? then
        SearchInRange(PrioFree(a.workers), idx, 0);
        (CountSent(a.(workers := PutPrio(a.workers, prio.value, p))), Prioritized(a.workers[prio.value].id))
      else PlaceData(AfterDwell(a, now), p, now)
  }

  lemma {:induction false} SearchInRange(free: seq<bool>, idx: nat, i: nat)
    requires free != []
    ensures Search(free, idx, i).Some? ==> Search(free, idx, i).value < |free| && free[Search(free, idx, i).value]
    decreases |free| - i
  {
    if i < |free| && !free[Around(|free|, idx, i)] {
      SearchInRange(free, idx, i + 1);
    }
  }

  function Registered(s: State, w: Slot): State { s.(workers := s.workers + [w]) }

  function Cut<T>(ws: seq<T>, k: nat): seq<T>
    requires k <= |ws|
  {
    if k < |ws| then ws[..k] + ws[k + 1..] else ws
  }

  /** Worker `k` gone; k == |workers| stands for a slot that was not registered. */
  function Unregistered(s: State, k: nat): State
    requires k <= |s.workers|
  {
    var ws := Cut(s.workers, k);
    s.(workers := ws,
       rrIndex := if s.rrIndex >= |ws| && |ws| > 0 then s.rrIndex % |ws| else s.rrIndex,
       rrCount := 0)
  }

  // ----- The code -----

  class WorkerSlot {
    const ID: nat
    var sendCh: seq<Packet>
    var prioCh: seq<Packet>
    var closed: bool

    constructor (id: nat)
      ensures View() == Slot(id, [], []) && !closed
    {
      ID, sendCh, prioCh, closed := id, [], [], false;
    }

    ghost function View(): Slot
      reads this
    {
      Slot(ID, sendCh, prioCh)
    }

    /** A select with a default branch on SendCh. */
    method TrySend(p: Packet) returns (ok: bool)
      modifies this`sendCh
      ensures ok == (|old(sendCh)| < SEND_CAP)
      ensures sendCh == old(sendCh) + if ok then [p] else []
    {
      ok := |sendCh| < SEND_CAP;
      if ok {
        sendCh := sendCh + [p];
      }
    }

    /** close(SendCh), then the loop that empties it. */
    method CloseAndDrain() returns (drained: seq<Packet>)
      modifies this`sendCh, this`closed
      ensures drained == old(sendCh) && sendCh == [] && closed
    {
      closed := true;
      drained := [];
      while sendCh != []
        invariant closed && drained + sendCh == old(sendCh)
        decreases |sendCh|
      {
        drained := drained + [sendCh[0]];
        sendCh := sendCh[1..];
      }
    }

    /** A select with a default branch on PrioCh. */
    method TryPrio(p: Packet) returns (ok: bool)
      modifies this`prioCh
      ensures ok == (|old(prioCh)| < PRIO_CAP)
      ensures prioCh == old(prioCh) + if ok then [p] else []
    {
      ok := |prioCh| < PRIO_CAP;
      if ok {
        prioCh := prioCh + [p];
      }
    }
  }

  function IndexOf(ws: seq<WorkerSlot>, w: WorkerSlot): (k: nat)
    ensures k <= |ws|
    ensures k < |ws| ==> ws[k] == w
    ensures forall i :: 0 <= i < k ==> ws[i] != w
  {
    if ws == [] then 0 else if ws[0] == w then 0 else 1 + IndexOf(ws[1..], w)
  }

  class Dispatcher {
    const tunFile: bool // raw mode: packets come from the TUN
    var workers: seq<WorkerSlot>
    var rrIndex: nat
    var rrCount: nat
    var lastPktTime: int
    var chunkStartTs: int
    var tunReadCount: Word64
    var tunSentCount: Word64
    var tunDroppedCount: Word64

    constructor (tunFile: bool)
      ensures View() == State([], 0, 0, 0, 0, tunFile, 0, 0, 0) && Distinct()
    {
      this.tunFile := tunFile;
      workers, rrIndex, rrCount, lastPktTime, chunkStartTs := [], 0, 0, 0, 0;
      tunReadCount, tunSentCount, tunDroppedCount := 0, 0, 0;
    }

    /** Each slot is registered once. */
    ghost predicate Distinct()
      reads this
    {
      forall i, j :: 0 <= i < j < |workers| ==> workers[i] != workers[j]
    }

    ghost function Slots(): (s: seq<Slot>)
      reads this, workers
      ensures |s| == |workers| && forall i :: 0 <= i < |s| ==> s[i] == workers[i].View()
    {
      seq(|workers|, i requires 0 <= i < |workers| reads this, workers => workers[i].View())
    }

    ghost function View(): State
      reads this, workers
    {
      State(Slots(), rrIndex, rrCount, lastPktTime, chunkStartTs, tunFile, tunReadCount, tunSentCount, tunDroppedCount)
    }

    method Register(w: WorkerSlot)
      requires Distinct() && w !in workers
      modifies this`workers
      ensures Distinct() && View() == Registered(old(View()), w.View())
    {
      workers := workers + [w];
    }

    method CutOut(slot: WorkerSlot)
      requires Distinct()
      modifies this`workers
      ensures Distinct() && slot !in workers
      ensures Slots() == Cut(old(Slots()), IndexOf(old(workers), slot))
    {
      ghost var ws, k, was := workers, IndexOf(workers, slot), Slots();
      hide IndexOf, WorkerSlot.View, Slots;
      var i := 0;
      while i < |workers| && workers[i] != slot
        invariant i <= k && workers == ws
      {
        i := i + 1;
      }
      assert i == k;
      if i < |workers| {
        workers := workers[..i] + workers[i + 1..];
        assert forall j :: 0 <= j < |workers| ==> workers[j] == if j < i then ws[j] else ws[j + 1];
        assert Slots() == was[..i] + was[i + 1..];
      }
    }

    /** Removes the slot, then closes and drains its SendCh. */
    method Unregister(slot: WorkerSlot) returns (drained: seq<Packet>)
      requires Distinct()
      modifies this`workers, this`rrIndex, this`rrCount, slot`sendCh, slot`closed
      ensures Distinct() && slot !in workers
      ensures View() == Unregistered(old(View()), IndexOf(old(workers), slot))
      ensures drained == old(slot.sendCh) && slot.sendCh == [] && slot.closed
    {
      hide Cut;
      ghost var was := View();
      CutOut(slot);
      assert View() == was.(workers := Slots());
      var remaining := |workers|;
      if rrIndex >= remaining && remaining > 0 {
        rrIndex := rrIndex % remaining;
      }
      rrCount := 0;
      drained := slot.CloseAndDrain();
    }

    method TryPrioAt(k: nat, pkt: Packet) returns (ok: bool)
      requires Distinct() && k < |workers|
      modifies workers[k]
      ensures ok == PrioFree(old(Slots()))[k]
      ensures Slots() == if ok then PutPrio(old(Slots()), k, pkt) else old(Slots())
    {
      ok := workers[k].TryPrio(pkt);
      assert Slots()[k] == old(Slots())[k].(prio := workers[k].prioCh);
      assert forall i :: 0 <= i < |workers| && i != k ==> Slots()[i] == old(Slots())[i];
      if !ok {
        assert workers[k].prioCh == old(workers[k].prioCh);
      }
    }

    /** Offers the packet to the workers' channels in cyclic order from `idx`. */
    method OfferPrio(pkt: Packet, idx: nat) returns (sent: bool, ghost at: nat)
      requires Distinct() && idx < |workers|
      modifies workers
      ensures var found := Search(PrioFree(old(Slots())), idx, 0);
              sent == found.Some? && (sent ==> found == Some(at) && at < |workers|)
      ensures Slots() == if sent then PutPrio(old(Slots()), at, pkt) else old(Slots())
    {
      hide PrioFree, PutPrio;
      ghost var was := Slots();
      var i := 0;
      sent, at := false, idx;
      while i < |workers| && !sent
        invariant i <= |workers| && at < |workers|
        invariant Search(PrioFree(was), idx, 0) == if sent then Some(at) else Search(PrioFree(was), idx, i)
        invariant Slots() == if sent then PutPrio(was, at, pkt) else was
        decreases |workers| - i
      {
        var alt := (idx + i) % |workers|;
        Wrap(|workers|, idx + i);
        at := alt;
        sent := TryPrioAt(alt, pkt);
        i := i + 1;
      }
    }

    method TrySendAt(k: nat, pkt: Packet) returns (ok: bool)
      requires Distinct() && k < |workers|
      modifies workers[k]
      ensures ok == SendFree(old(Slots()))[k]
      ensures Slots() == if ok then PutSend(old(Slots()), k, pkt) else old(Slots())
    {
      ok := workers[k].TrySend(pkt);
      assert Slots()[k] == old(Slots())[k].(send := workers[k].sendCh);
      assert forall i :: 0 <= i < |workers| && i != k ==> Slots()[i] == old(Slots())[i];
      if !ok {
        assert workers[k].sendCh == old(workers[k].sendCh);
      }
    }

    /** Offers the packet to the workers' channels in cyclic order from `idx`. */
    method OfferSend(pkt: Packet, idx: nat) returns (sent: bool, at: nat)
      requires Distinct() && idx < |workers|
      modifies workers
      ensures var found := Search(SendFree(old(Slots())), idx, 0);
              sent == found.Some? && (sent ==> found == Some(at) && at < |workers|)
      ensures Slots() == if sent then PutSend(old(Slots()), at, pkt) else old(Slots())
    {
      hide SendFree, PutSend;
      ghost var was := Slots();
      var i := 0;
      sent, at := false, idx;
      while i < |workers| && !sent
        invariant i <= |workers| && at < |workers|
        invariant Search(SendFree(was), idx, 0) == if sent then Some(at) else Search(SendFree(was), idx, i)
        invariant Slots() == if sent then PutSend(was, at, pkt) else was
        decreases |workers| - i
      {
        at := (idx + i) % |workers|;
        Wrap(|workers|, idx + i);
        sent := TrySendAt(at, pkt);
        i := i + 1;
      }
    }

    /** The body of readLoop for one packet. */
    method HandlePacket(pkt: Packet, now: int) returns (ghost fate: Fate)
      requires Distinct()
      modifies this, workers
      ensures Distinct() && workers == old(workers)
      ensures (View(), fate) == Dispatch(old(View()), pkt, now)
    {
      hide Search, PutPrio, PrioFree, PlaceData, AfterPause, AfterDwell, CountSent, CountDropped, CountRead;
      NoteRead();
      if |workers| == 0 {
        NoteDropped();
        return NoWorkers;
      }
      CheckPause(now);
      ghost var paused := View();
      if pkt.size <= PRIO_THRESHOLD {
        ghost var at;
        var sentPrio;
        sentPrio, at := OfferPrio(pkt, rrIndex % |workers|);
        if sentPrio {
          assert View() == paused.(workers := PutPrio(paused.workers, at, pkt));
          NoteSent();
          return Prioritized(paused.workers[at].id);
        }
        assert View() == paused;
      }
      fate := SendData(pkt, now);
    }

    method NoteRead()
      modifies this`tunReadCount
      ensures View() == CountRead(old(View()))
    {
      if tunFile {
        tunReadCount := Low64(tunReadCount + 1);
      }
    }

    method CheckPause(now: int)
      requires workers != []
      modifies this`lastPktTime, this`rrIndex, this`rrCount, this`chunkStartTs
      ensures View() == AfterPause(old(View()), now)
    {
      var lastTime := lastPktTime;
      lastPktTime := now;
      if lastTime > 0 && now - lastTime > MAX_PAUSE {
        rrIndex, rrCount, chunkStartTs := (rrIndex + 1) % |workers|, 0, now;
      }
    }

    method CheckDwell(now: int)
      requires workers != []
      modifies this`rrIndex, this`rrCount, this`chunkStartTs
      ensures View() == AfterDwell(old(View()), now)
    {
      if chunkStartTs == 0 {
        chunkStartTs := now;
      } else if now - chunkStartTs >= MAX_DWELL {
        rrIndex, rrCount, chunkStartTs := (rrIndex + 1) % |workers|, 0, now;
      }
    }

    method Book(at: nat, idx: nat, chunk: nat, now: int)
      requires workers != []
      modifies this`rrIndex, this`rrCount, this`chunkStartTs
      ensures View() == Booked(old(View()), at, idx, chunk, now)
    {
      if at == idx {
        rrCount := rrCount + 1;
        if rrCount >= chunk {
          rrIndex, rrCount, chunkStartTs := (idx + 1) % |workers|, 0, now;
        }
      } else {
        rrIndex, rrCount, chunkStartTs := at, 1, now;
      }
    }

    method GiveUp(idx: nat)
      requires workers != []
      modifies this`rrIndex, this`rrCount
      ensures View() == GaveUp(old(View()), idx)
    {
      rrIndex, rrCount := (idx + 1) % |workers|, 0;
    }

    method NoteSent()
      modifies this`tunSentCount
      ensures View() == CountSent(old(View()))
    {
      if tunFile {
        tunSentCount := Low64(tunSentCount + 1);
      }
    }

    method NoteDropped()
      modifies this`tunDroppedCount
      ensures View() == CountDropped(old(View()))
    {
      if tunFile {
        tunDroppedCount := Low64(tunDroppedCount + 1);
      }
    }

    /** Its second half: the chunked data queue. */
    method SendData(pkt: Packet, now: int) returns (ghost fate: Fate)
      requires Distinct() && workers != []
      modifies this, workers
      ensures Distinct() && workers == old(workers)
      ensures (View(), fate) == PlaceData(AfterDwell(old(View()), now), pkt, now)
    {
      hide Search, PutSend, SendFree, AfterDwell, ChunkSizeFor, Booked, GaveUp, CountSent, CountDropped;
      CheckDwell(now);
      ghost var before := View();
      var idx := rrIndex % |workers|;
      var sent, at := OfferSend(pkt, idx);
      if sent {
        fate := Sent(before.workers[at].id);
        assert View() == before.(workers := PutSend(before.workers, at, pkt));
        Book(at, idx, ChunkSizeFor(pkt.size), now);
        NoteSent();
      } else {
        fate := AllFull;
        assert View() == before;
        GiveUp(idx);
        NoteDropped();
      }
    }
  }
}
