/** The direct connection (internal/core/session.go, type obfsDirectConn) over
    a network that drops, duplicates, reorders and injects packets. */
module DirectChannel {
  import opened Wrappers
  import opened Words
  import opened Nonce
  import opened ReplayWindow
  import opened ReplayRuns
  import opened Packet
  import G = GenuineTraffic

  const SLACK: nat := 80 // header, tag and padding allowance of Read's buffer

  /** Read's buffer of `room + 80` bytes takes the packet whole; the relay
      answers a longer one with io.ErrShortBuffer. */
  predicate Fits(pkt: Bytes, room: nat) { |pkt| <= room + SLACK }

  /** What a packet that fits and authenticates contains. */
  function Opening(aead: Aead, key: Bytes, pkt: Bytes, room: nat): Option<Bytes> {
    if !Fits(pkt, room) || !IsRtpPacket(pkt) then None
    else
      match Unwrap(aead, key, pkt, room)
      case Err(_) => None
      case Ok(p) => Some(p)
  }

  /** What one packet makes of Read: an error, another turn, or a payload. */
  datatype Outcome = Failed | Skipped | Returned(payload: Bytes)

  function OutcomeOf(aead: Aead, key: Bytes, w: Window, pkt: Bytes, room: nat): Outcome {
    if !Fits(pkt, room) then Failed
    else
      match Opening(aead, key, pkt, room)
      case None => Skipped
      case Some(p) => if Passes(w, HeaderFrom(pkt)) then Returned(p) else Skipped
  }

  /** The window after one packet: only authenticated packets reach it. */
  function WindowOf(aead: Aead, key: Bytes, w: Window, pkt: Bytes, room: nat): Window {
    if Opening(aead, key, pkt, room).Some? then Next(w, HeaderFrom(pkt)) else w
  }

  function WindowAfter(aead: Aead, key: Bytes, w: Window, inbox: seq<Bytes>, room: nat): Window {
    if inbox == [] then w
    else WindowOf(aead, key, WindowAfter(aead, key, w, inbox[..|inbox| - 1], room), inbox[|inbox| - 1], room)
  }

  /** The packet is longer than the buffer, or the relay timed out or closed
      before one came. */
  datatype ReadError = ShortBuffer | NoPacket

  class DirectConn {
    const aead: Aead
    const wrapKey: Bytes
    const cfg: Config
    const writeState: ObfsState
    const replay: Guard

    constructor (aead: Aead, wrapKey: Bytes, cfg: Config, writeState: ObfsState)
      ensures this.aead == aead && this.wrapKey == wrapKey && this.cfg == cfg && this.writeState == writeState
      ensures fresh(replay) && replay.View() == Fresh
    {
      this.aead, this.wrapKey, this.cfg, this.writeState := aead, wrapKey, cfg, writeState;
      this.replay := new Guard();
    }

    ghost function Identity(): Sender {
      Sender(cfg.ssrc, writeState.initSeq, writeState.initTs)
    }

    /** Seals one packet and hands it to the relay, which may fail: all of the
        payload was written, or none and why. */
    method Write(b: Bytes, draw: Option<Byte>, noise: Option<nat -> Byte>, relayWorks: bool)
      returns (r: Result<nat, WrapError>, toRelay: Option<Bytes>)
      requires aead.Ideal() && |wrapKey| == KEY_LEN
      modifies writeState`count
      ensures b == [] ==> r == Err(EmptyPayload) && writeState.count == old(writeState.count)
      ensures b != [] ==> writeState.count == Low64(old(writeState.count) + 1)
      ensures var w := Wrapped(aead, wrapKey, b, cfg, HeaderOf(Identity(), old(writeState.count)), draw, noise);
              match w
              case Err(e) => r == Err(e) && toRelay == None
              case Ok(wire) => toRelay == Some(wire) && r == if relayWorks then Ok(|b|) else Err(RelayFailed)
    {
      var w := WrapPacket(aead, wrapKey, b, cfg, writeState, draw, noise);
      if w.Err? {
        return Err(w.error), None;
      }
      if !relayWorks {
        return Err(RelayFailed), Some(w.value);
      }
      return Ok(|b|), Some(w.value);
    }

    /** What packet `i` of an inbox read from window `w` on makes of Read. */
    ghost function Yields(w: Window, inbox: seq<Bytes>, i: nat, room: nat): Outcome
      requires i < |inbox|
    {
      OutcomeOf(aead, wrapKey, WindowAfter(aead, wrapKey, w, inbox[..i], room), inbox[i], room)
    }

    /** One turn of Read's loop; None for `continue`. */
    method Receive(b: array<Byte>, pkt: Bytes) returns (m: Option<Result<nat, ReadError>>)
      requires aead.Ideal()
      modifies b, replay
      ensures replay.View() == WindowOf(aead, wrapKey, old(replay.View()), pkt, b.Length)
      ensures match m
              case None => OutcomeOf(aead, wrapKey, old(replay.View()), pkt, b.Length) == Skipped
              case Some(Err(e)) => e == ShortBuffer && b[..] == old(b[..])
                                   && OutcomeOf(aead, wrapKey, old(replay.View()), pkt, b.Length) == Failed
              case Some(Ok(n)) => n <= b.Length
                                  && OutcomeOf(aead, wrapKey, old(replay.View()), pkt, b.Length) == Returned(b[..n])
    {
      hide Unwrap, HeaderFrom, Passes, Next;
      if |pkt| > b.Length + SLACK {
        return Some(Err(ShortBuffer));
      }
      if !IsRtpPacket(pkt) {
        return None;
      }
      var n := UnwrapPacket(aead, wrapKey, pkt, b);
      if n.Err? {
        return None;
      }
      var ok := replay.Accept(pkt);
      if !ok {
        return None;
      }
      return Some(Ok(n.value));
    }

    /** Reads from `inbox` until a packet passes or is too long; when none is or
        does, the relay fails with an error of its own. `used` packets were
        consumed. */
    method Read(b: array<Byte>, inbox: seq<Bytes>) returns (m: Result<nat, ReadError>, used: nat)
      requires aead.Ideal()
      modifies b, replay
      ensures used <= |inbox|
      ensures replay.View() == WindowAfter(aead, wrapKey, old(replay.View()), inbox[..used], b.Length)
      ensures m == Err(NoPacket) ==> used == |inbox|
      ensures m == Err(ShortBuffer) ==> used > 0 && Yields(old(replay.View()), inbox, used - 1, b.Length) == Failed
      ensures m.Ok? ==> (used > 0 && m.value <= b.Length
                         && Yields(old(replay.View()), inbox, used - 1, b.Length) == Returned(b[..m.value]))
      ensures forall i :: 0 <= i < (if m == Err(NoPacket) then used else used - 1) ==>
                Yields(old(replay.View()), inbox, i, b.Length) == Skipped
    {
      hide OutcomeOf, WindowOf;
      used := 0;
      ghost var w := replay.View();
      while used < |inbox|
        invariant used <= |inbox|
        invariant replay.View() == WindowAfter(aead, wrapKey, w, inbox[..used], b.Length)
        invariant forall i :: 0 <= i < used ==> Yields(w, inbox, i, b.Length) == Skipped
      {
        assert inbox[..used + 1][..used] == inbox[..used];
        var turn := Receive(b, inbox[used]);
        used := used + 1;
        if turn.Some? {
          return turn.value, used;
        }
      }
      m := Err(NoPacket);
    }
  }

  // ----- One sender, one receiver, a hostile network -----

  datatype Delivery = Delivery(arrival: nat, payload: Bytes)

  /** `written[c]` is the payload sealed under counter `c`, None if the random
      source failed. `arrivals` are the headers that reached the window.
      `reading` until Read fails: the session's reader then ends, and so does
      the session. */
  datatype System = System(written: seq<Option<Bytes>>, window: Window, arrivals: seq<Header>, got: seq<Delivery>,
                           reading: bool)

  datatype Link = Link(aead: Aead, key: Bytes, sender: Sender, payloadType: Byte)

  datatype Event = Write(payload: Bytes, random: bool) | Arrive(pkt: Bytes, room: nat)

  const Start: System := System([], Fresh, [], [], true)

  function Step(l: Link, s: System, e: Event): System {
    match e
    case Write(p, random) =>
      if p == [] then s else s.(written := s.written + [if random then Some(p) else None])
    case Arrive(pkt, room) =>
      if !s.reading then s
      else
        var opening, outcome := Opening(l.aead, l.key, pkt, room), OutcomeOf(l.aead, l.key, s.window, pkt, room);
        System(s.written,
               WindowOf(l.aead, l.key, s.window, pkt, room),
               if opening.Some? then s.arrivals + [HeaderFrom(pkt)] else s.arrivals,
               if outcome.Returned? then s.got + [Delivery(|s.arrivals|, outcome.payload)] else s.got,
               !outcome.Failed?)
  }

  function Run(l: Link, events: seq<Event>): System {
    if events == [] then Start else Step(l, Run(l, events[..|events| - 1]), events[|events| - 1])
  }

  /** The header and ciphertext are ones the sender produced. */
  ghost predicate Sealed(l: Link, s: System, hdr: Bytes, ct: Bytes) {
    exists c :: 0 <= c < |s.written| <= 0x1_0000_0000_0000 && s.written[c].Some?
      && hdr == RtpHeader(l.payloadType, HeaderOf(l.sender, c))
      && ct == l.aead.seal(l.key, NonceOf(l.sender, c), s.written[c].value, hdr)
  }

  /** Unforgeability: whatever the network delivers, the part of it that
      authenticates was sealed by the sender. */
  ghost predicate Unforged(l: Link, s: System, wire: Bytes) {
    forall hdr, p, pad :: Frames(l.aead, l.key, wire, hdr, p, pad) ==>
      Sealed(l, s, hdr, l.aead.seal(l.key, BuildNonce(HeaderFrom(hdr)), p, hdr))
  }

  /** Runs of at most 2^48 writes against a network that cannot forge. */
  ghost predicate Legal(l: Link, events: seq<Event>) {
    && l.aead.Ideal() && |l.key| == KEY_LEN
    && (forall i :: 0 <= i < |events| && events[i].Arrive? ==>
          Unforged(l, Run(l, events[..i]), events[i].pkt))
  }

  /** Payload `p` arrived under header `h` and is what the sender wrote. */
  ghost predicate WasWritten(l: Link, s: System, h: Header, p: Bytes) {
    exists c :: 0 <= c < |s.written| <= 0x1_0000_0000_0000 && s.written[c] == Some(p) && h == HeaderOf(l.sender, c)
  }

  /** The window is the result of the arrivals, and each delivery is an
      accepted arrival of its own. */
  ghost predicate Faithful(s: System) {
    && s.window == After(s.arrivals)
    && (forall k :: 0 <= k < |s.got| ==> s.got[k].arrival < |s.arrivals| && Accepted(s.arrivals, s.got[k].arrival))
    && (forall k, m :: 0 <= k < m < |s.got| ==> s.got[k].arrival < s.got[m].arrival)
  }

  ghost predicate Provenance(l: Link, s: System)
    requires Faithful(s)
  {
    |s.written| <= 0x1_0000_0000_0000 ==>
      forall k :: 0 <= k < |s.got| ==> WasWritten(l, s, s.arrivals[s.got[k].arrival], s.got[k].payload)
  }

  /** What every reachable system satisfies. */
  ghost predicate Invariant(l: Link, s: System) { Faithful(s) && Provenance(l, s) }

  lemma AuthenticIsWritten(l: Link, s: System, wire: Bytes, room: nat, p: Bytes)
    requires l.aead.Ideal() && |l.key| == KEY_LEN && Unforged(l, s, wire)
    requires Unwrap(l.aead, l.key, wire, room) == Ok(p)
    ensures WasWritten(l, s, HeaderFrom(wire), p)
  {
    UnwrappedIsFramed(l.aead, l.key, wire, room, p);
    hide Unwrap, HeaderFrom, HeaderOf, BuildNonce, RtpHeader;
    var hdr, pad :| Frames(l.aead, l.key, wire, hdr, p, pad);
    NonceIsHeaderBytes(hdr);
    var ct := l.aead.seal(l.key, BuildNonce(HeaderFrom(hdr)), p, hdr);
    assert wire[..|hdr|] == hdr;
    HeaderOfPrefix(wire, |hdr|);
    assert Sealed(l, s, hdr, ct);
    var c :| 0 <= c < |s.written| <= 0x1_0000_0000_0000 && s.written[c].Some?
      && hdr == RtpHeader(l.payloadType, HeaderOf(l.sender, c))
      && ct == l.aead.seal(l.key, NonceOf(l.sender, c), s.written[c].value, hdr);
    assert l.aead.unseal(l.key, NonceOf(l.sender, c), ct, hdr) == Some(s.written[c].value);
    assert l.aead.unseal(l.key, BuildNonce(HeaderFrom(hdr)), ct, hdr) == Some(p);
  }

  lemma WriteKeepsInvariant(l: Link, s: System, x: Option<Bytes>)
    requires Invariant(l, s)
    ensures Invariant(l, s.(written := s.written + [x]))
  {
    var t := s.(written := s.written + [x]);
    forall k | 0 <= k < |s.got| && |t.written| <= 0x1_0000_0000_0000
      ensures WasWritten(l, t, s.arrivals[s.got[k].arrival], s.got[k].payload)
    {
      assert WasWritten(l, s, s.arrivals[s.got[k].arrival], s.got[k].payload);
      StillWritten(l, s, t, s.arrivals[s.got[k].arrival], s.got[k].payload);
    }
  }

  lemma StillWritten(l: Link, s: System, t: System, h: Header, p: Bytes)
    requires WasWritten(l, s, h, p) && s.written <= t.written && |t.written| <= 0x1_0000_0000_0000
    ensures WasWritten(l, t, h, p)
  {
  }

  /** The system once an authenticated packet has reached the window; `p` is
      what Read makes of it. */
  ghost function Arrived(s: System, h: Header, p: Bytes): System {
    s.(window := Next(s.window, h), arrivals := s.arrivals + [h],
       got := if Passes(s.window, h) then s.got + [Delivery(|s.arrivals|, p)] else s.got)
  }

  lemma ArrivalIsFaithful(s: System, h: Header, p: Bytes)
    requires Faithful(s)
    ensures Faithful(Arrived(s, h, p))
  {
    LongerRun(s.arrivals, h);
    hide Passes, Next;
  }

  lemma ArrivalKeepsProvenance(l: Link, s: System, h: Header, p: Bytes)
    requires Invariant(l, s) && WasWritten(l, s, h, p) && Faithful(Arrived(s, h, p))
    ensures Provenance(l, Arrived(s, h, p))
  {
    hide Passes, Next, Accepted, After, HeaderOf;
    var t := Arrived(s, h, p);
    forall k | 0 <= k < |t.got|
      ensures WasWritten(l, t, t.arrivals[t.got[k].arrival], t.got[k].payload)
    {
      if k < |s.got| {
        assert WasWritten(l, s, s.arrivals[s.got[k].arrival], s.got[k].payload);
        StillWritten(l, s, t, t.arrivals[t.got[k].arrival], t.got[k].payload);
      } else {
        StillWritten(l, s, t, h, p);
      }
    }
  }

  lemma StepKeepsInvariant(l: Link, s: System, e: Event)
    requires l.aead.Ideal() && |l.key| == KEY_LEN && Invariant(l, s)
    requires e.Arrive? ==> Unforged(l, s, e.pkt)
    ensures Invariant(l, Step(l, s, e))
  {
    hide Passes, Next, Unwrap, HeaderFrom, Faithful, Provenance;
    match e
    case Write(p, random) =>
      WriteKeepsInvariant(l, s, if random then Some(p) else None);
    case Arrive(pkt, room) =>
      var opening := Opening(l.aead, l.key, pkt, room);
      if opening.Some? {
        AuthenticIsWritten(l, s, pkt, room, opening.value);
        ArrivalIsFaithful(s, HeaderFrom(pkt), opening.value);
        ArrivalKeepsProvenance(l, s, HeaderFrom(pkt), opening.value);
      }
      ArriveIsArrived(l, s, pkt, room);
      EndingKeepsInvariant(l, s);
  }

  /** Three things can happen at an arrival. */
  lemma ArriveIsArrived(l: Link, s: System, pkt: Bytes, room: nat)
    ensures var opening, t := Opening(l.aead, l.key, pkt, room), Step(l, s, Arrive(pkt, room));
            if !s.reading then t == s
            else if !Fits(pkt, room) then t == s.(reading := false)
            else t == if opening.Some? then Arrived(s, HeaderFrom(pkt), opening.value) else s
  {
  }

  lemma EndingKeepsInvariant(l: Link, s: System)
    requires Invariant(l, s)
    ensures Invariant(l, s.(reading := false))
  {
    var t := s.(reading := false);
    assert Faithful(t);
    hide Accepted, After;
    forall k | 0 <= k < |t.got| && |t.written| <= 0x1_0000_0000_0000
      ensures WasWritten(l, t, t.arrivals[t.got[k].arrival], t.got[k].payload)
    {
      assert WasWritten(l, s, s.arrivals[s.got[k].arrival], s.got[k].payload);
      StillWritten(l, s, t, s.arrivals[s.got[k].arrival], s.got[k].payload);
    }
  }

  lemma LongerRun(run: seq<Header>, h: Header)
    ensures After(run + [h]) == Next(After(run), h)
    ensures forall i :: 0 <= i < |run| ==> Accepted(run + [h], i) == Accepted(run, i)
    ensures Accepted(run + [h], |run|) == Passes(After(run), h)
  {
    assert (run + [h])[..|run|] == run;
    forall i | 0 <= i < |run|
      ensures Accepted(run + [h], i) == Accepted(run, i)
    {
      assert (run + [h])[..i] == run[..i];
    }
  }

  lemma LegalPrefix(l: Link, events: seq<Event>)
    requires events != [] && Legal(l, events)
    ensures Legal(l, events[..|events| - 1])
  {
    var front := events[..|events| - 1];
    hide Unforged, Run;
    forall i | 0 <= i < |front| && front[i].Arrive?
      ensures Unforged(l, Run(l, front[..i]), front[i].pkt)
    {
      assert front[..i] == events[..i];
    }
  }

  lemma {:induction false} RunsKeepInvariant(l: Link, events: seq<Event>)
    requires Legal(l, events)
    ensures Invariant(l, Run(l, events))
  {
    if events != [] {
      var front := events[..|events| - 1];
      LegalPrefix(l, events);
      RunsKeepInvariant(l, front);
      StepKeepsInvariant(l, Run(l, front), events[|events| - 1]);
    }
  }

  /** Every payload Read ever returns was passed to the one sender's Write. */
  lemma NothingInvented(l: Link, events: seq<Event>, k: nat)
    requires Legal(l, events) && k < |Run(l, events).got| && |Run(l, events).written| <= 0x1_0000_0000_0000
    ensures var s := Run(l, events);
            && s.got[k].arrival < |s.arrivals|
            && exists c :: 0 <= c < |s.written| && s.written[c] == Some(s.got[k].payload)
                 && s.arrivals[s.got[k].arrival] == HeaderOf(l.sender, c)
  {
    RunsKeepInvariant(l, events);
    var s := Run(l, events);
    assert WasWritten(l, s, s.arrivals[s.got[k].arrival], s.got[k].payload);
  }

  /** Each written packet is delivered at most once: two deliveries come from
      different counters while the window is less than 2^31 past the first. */
  lemma DeliveredAtMostOnce(l: Link, events: seq<Event>, k: nat, m: nat)
    requires Legal(l, events)
    requires k < m < |Run(l, events).got| && |Run(l, events).arrivals| <= 0x1_0000_0000
    ensures var s := Run(l, events); Faithful(s)
    ensures var s := Run(l, events);
            var i, j := s.got[k].arrival, s.got[m].arrival;
            After(s.arrivals[..j]).highest < FiledAt(s.arrivals, i) + HALF ==>
              forall c: Word64, d: Word64 ::
                s.arrivals[i] == HeaderOf(l.sender, c) && s.arrivals[j] == HeaderOf(l.sender, d) ==> c != d
  {
    RunsKeepInvariant(l, events);
    var s := Run(l, events);
    var i, j := s.got[k].arrival, s.got[m].arrival;
    ClockBound(s.arrivals[..j]);
    if After(s.arrivals[..j]).highest < FiledAt(s.arrivals, i) + HALF && s.arrivals[i] == s.arrivals[j] {
      ReplaySafety(s.arrivals, i, j);
    }
  }

  // ----- What Read returns -----

  /** A packet makes Read return `p` exactly when it is at most room + 80 bytes
      long, of one of the two payload types, `p` in a well-made frame that fits
      the caller's buffer, and new to the window. */
  lemma ReturnedExactly(aead: Aead, key: Bytes, w: Window, pkt: Bytes, room: nat, p: Bytes)
    requires aead.Ideal() && |key| == 32
    ensures OutcomeOf(aead, key, w, pkt, room) == Returned(p) <==>
              && |pkt| <= room + 80 && |p| <= room
              && (exists hdr, pad :: Frames(aead, key, pkt, hdr, p, pad))
              && (pkt[1] % 128 == 96 || pkt[1] % 128 == 111)
              && Passes(w, HeaderFrom(pkt))
  {
    UnwrapExactly(aead, key, pkt, room, p);
    hide Unwrap, HeaderFrom, Passes;
  }

  // ----- What does not authenticate -----

  ghost predicate Forged(l: Link, pkt: Bytes) {
    forall hdr, p, pad :: !Frames(l.aead, l.key, pkt, hdr, p, pad)
  }

  /** A packet that does not authenticate is skipped and changes nothing if and
      only if it is at most room + 80 bytes long; otherwise Read fails, which
      changes nothing else. */
  lemma ForgeriesAreInert(l: Link, s: System, pkt: Bytes, room: nat)
    requires l.aead.Ideal() && |l.key| == KEY_LEN && Forged(l, pkt)
    ensures OutcomeOf(l.aead, l.key, s.window, pkt, room) == if |pkt| <= room + SLACK then Skipped else Failed
    ensures Step(l, s, Arrive(pkt, room)) == s.(reading := s.reading && |pkt| <= room + SLACK)
  {
    if Unwrap(l.aead, l.key, pkt, room).Ok? {
      UnwrappedIsFramed(l.aead, l.key, pkt, room, Unwrap(l.aead, l.key, pkt, room).value);
    }
  }

  /** The reader is still at work just when every packet so far fitted. */
  lemma {:induction false} ReadsOnExactly(l: Link, events: seq<Event>)
    ensures Run(l, events).reading <==> forall e :: e in events && e.Arrive? ==> Fits(e.pkt, e.room)
  {
    if events != [] {
      var n := |events| - 1;
      ReadsOnExactly(l, events[..n]);
      assert events == events[..n] + [events[n]];
      if events[n].Arrive? {
        ArriveIsArrived(l, Run(l, events[..n]), events[n].pkt, events[n].room);
      }
      hide Opening, OutcomeOf, WindowOf, Fits;
    }
  }

  lemma NothingReadAfter(l: Link, s: System, e: Event)
    requires !s.reading
    ensures !Step(l, s, e).reading && Step(l, s, e).got == s.got
  {
  }

  lemma {:induction false} EndedStaysEnded(l: Link, events: seq<Event>, later: seq<Event>)
    requires !Run(l, events).reading
    ensures !Run(l, events + later).reading && Run(l, events + later).got == Run(l, events).got
  {
    hide Step;
    if later == [] {
      assert events + later == events;
    } else {
      var n := |later| - 1;
      EndedStaysEnded(l, events, later[..n]);
      assert (events + later)[..|events| + n] == events + later[..n];
      NothingReadAfter(l, Run(l, events + later[..n]), later[n]);
    }
  }

  lemma ZerosAreForged(l: Link, pkt: Bytes)
    requires pkt != [] && pkt[0] == 0
    ensures Forged(l, pkt)
  {
  }

  /** What fails: one injected packet of room + 81 zeros, and nothing that
      arrives after it is delivered. */
  lemma LongForgeryEndsReading(l: Link, events: seq<Event>, room: nat, later: seq<Event>)
    ensures var pkt := seq(room + SLACK + 1, _ => 0);
            Forged(l, pkt) && Run(l, events + [Arrive(pkt, room)] + later).got == Run(l, events).got
  {
    var pkt: Bytes := seq(room + SLACK + 1, _ => 0);
    var hit := events + [Arrive(pkt, room)];
    ZerosAreForged(l, pkt);
    assert hit[..|hit| - 1] == events;
    ArriveIsArrived(l, Run(l, events), pkt, room);
    hide Step;
    EndedStaysEnded(l, hit, later);
  }

  /** A packet of another sender authenticates if the key is the same, in a
      reflected packet for instance; once the window knows its sender it is
      skipped and changes nothing. */
  lemma ForeignIsSkipped(l: Link, s: System, pkt: Bytes, room: nat)
    requires s.arrivals != [] && s.window == After(s.arrivals) && Fits(pkt, room)
    requires |pkt| >= 12 && HeaderFrom(pkt).ssrc != s.arrivals[0].ssrc
    ensures OutcomeOf(l.aead, l.key, s.window, pkt, room) == Skipped
    ensures WindowOf(l.aead, l.key, s.window, pkt, room) == s.window
  {
    FirstSets(s.arrivals);
    ForeignIsRefused(s.window, HeaderFrom(pkt));
    hide Passes, Next, Unwrap, HeaderFrom;
  }

  // ----- What Read's buffer lets through -----

  /** The padding and its count byte. */
  function Tail(pad: Bytes): Bytes { pad + [(|pad| + 1) % 256] }

  lemma TailedHeader(payloadType: Byte, h: Header, rest: Bytes)
    requires rest != []
    ensures var hdr, wire := RtpHeader(payloadType, h), RtpHeader(payloadType, h) + rest;
            && hdr[0] == 0xA0 && HeaderFrom(hdr) == h && HeaderFrom(wire) == h
            && IsRtpPacket(wire) == (payloadType % 128 == 111 || payloadType % 128 == 96)
  {
  }

  /** A packet whose tail counts itself unwraps to its payload; one whose tail
      does not, never does. */
  lemma TailDecides(aead: Aead, key: Bytes, payloadType: Byte, h: Header, p: Bytes, tail: Bytes, room: nat)
    requires aead.Ideal() && |key| == KEY_LEN && p != [] && |p| <= room && tail != []
    ensures var hdr := RtpHeader(payloadType, h);
            Unwrap(aead, key, hdr + aead.seal(key, BuildNonce(h), p, hdr) + tail, room) == Ok(p)
            <==> tail[|tail| - 1] == |tail|
  {
    hide RtpHeader, HeaderFrom, BuildNonce, Unwrap;
    var hdr := RtpHeader(payloadType, h);
    TailedHeader(payloadType, h, tail);
    var ct := aead.seal(key, BuildNonce(h), p, hdr);
    var wire := hdr + ct + tail;
    if Unwrap(aead, key, wire, room) == Ok(p) {
      UnwrappedIsFramed(aead, key, wire, room, p);
      var hdr', pad :| Frames(aead, key, wire, hdr', p, pad);
      NonceIsHeaderBytes(hdr');
      SameFrame(wire, hdr, ct, tail, hdr', aead.seal(key, BuildNonce(HeaderFrom(hdr')), p, hdr'), pad);
    } else if tail[|tail| - 1] == |tail| {
      NonceIsHeaderBytes(hdr);
      FramedIsUnwrapped(aead, key, wire, room, hdr, p, tail);
    }
  }

  /** Frames with headers and texts of the same lengths have the same padding. */
  lemma SameFrame(wire: Bytes, hdr: Bytes, ct: Bytes, tail: Bytes, hdr': Bytes, ct': Bytes, pad: Bytes)
    requires wire == hdr + ct + tail == hdr' + ct' + pad && |ct| == |ct'|
    requires |hdr| >= 12 && |hdr| == (if hdr[0] / 16 % 2 == 1 then 24 else 12)
    requires |hdr'| >= 12 && |hdr'| == (if hdr'[0] / 16 % 2 == 1 then 24 else 12)
    ensures pad == tail && hdr == hdr'
  {
    assert wire[0] == hdr[0] == hdr'[0];
    assert tail == wire[|hdr| + |ct|..] && pad == wire[|hdr'| + |ct'|..];
    assert hdr == wire[..|hdr|] && hdr' == wire[..|hdr'|];
  }

  /** Payload and padding leave room for the header, the tag and the count. */
  predicate WireFits(p: Bytes, pad: Bytes, room: nat) { |p| + |pad| <= room + 51 }

  lemma WireIsTailed(l: Link, h: Header, p: Bytes, pad: Bytes, room: nat)
    requires l.aead.Ideal()
    ensures var hdr, wire := RtpHeader(l.payloadType, h), Wire(l.aead, l.key, p, l.payloadType, h, pad);
            wire == hdr + l.aead.seal(l.key, BuildNonce(h), p, hdr) + Tail(pad)
            && (Fits(wire, room) <==> WireFits(p, pad, room))
  {
  }

  /** Exactly what a sealed packet makes of Read: the payload is returned iff the
      window passes it, payload and packet fit and the count byte holds the
      count; Read fails iff the packet does not fit. */
  lemma DeliveredExactly(l: Link, w: Window, h: Header, p: Bytes, pad: Bytes, room: nat)
    requires l.aead.Ideal() && |l.key| == KEY_LEN && (l.payloadType == 111 || l.payloadType == 96)
    requires p != []
    ensures var wire := Wire(l.aead, l.key, p, l.payloadType, h, pad);
            var outcome := OutcomeOf(l.aead, l.key, w, wire, room);
            && (outcome == Returned(p) <==> Passes(w, h) && |p| <= room && WireFits(p, pad, room) && |pad| <= 254)
            && (outcome == Failed <==> !WireFits(p, pad, room))
            && (|p| <= room && WireFits(p, pad, room) && |pad| <= 254 ==>
                  WindowOf(l.aead, l.key, w, wire, room) == Next(w, h))
            && (!WireFits(p, pad, room) ==> WindowOf(l.aead, l.key, w, wire, room) == w)
  {
    hide Passes, Next, Wire, Unwrap, HeaderFrom, IsRtpPacket, RtpHeader, BuildNonce, Fits, WireFits;
    WireIsTailed(l, h, p, pad, room);
    var hdr := RtpHeader(l.payloadType, h);
    var ct := l.aead.seal(l.key, BuildNonce(h), p, hdr);
    TailedHeader(l.payloadType, h, ct + Tail(pad));
    assert hdr + ct + Tail(pad) == hdr + (ct + Tail(pad));
    if |p| <= room {
      TailDecides(l.aead, l.key, l.payloadType, h, p, Tail(pad), room);
    } else {
      UnwrapExactly(l.aead, l.key, Wire(l.aead, l.key, p, l.payloadType, h, pad), room, p);
    }
  }

  /** Read returns every payload that fits its caller's buffer, for every draw
      and noise. */
  ghost predicate ReturnsAll(l: Link, cfg: Config, w: Window, h: Header, room: nat) {
    forall p: Bytes, draw: Byte, noise: nat -> Byte ::
      p != [] && |p| <= room ==> Returns(l, cfg, w, h, room, p, draw, noise)
  }

  ghost predicate Returns(l: Link, cfg: Config, w: Window, h: Header, room: nat, p: Bytes, draw: Byte, noise: nat -> Byte) {
    var r := Wrapped(l.aead, l.key, p, cfg, h, Some(draw), Some(noise));
    r.Ok? && OutcomeOf(l.aead, l.key, w, r.value, room) == Returned(p)
  }

  /** The random padding a configuration draws. */
  function PadOf(cfg: Config, draw: Byte, noise: nat -> Byte): Bytes {
    if PadDraw(cfg, draw) > 0 then Noise(PadDraw(cfg, draw), noise) else []
  }

  lemma ReturnsExactly(l: Link, cfg: Config, w: Window, h: Header, room: nat, p: Bytes, draw: Byte, noise: nat -> Byte)
    requires l.aead.Ideal() && |l.key| == KEY_LEN && l.payloadType == cfg.payloadType && Passes(w, h)
    requires (cfg.payloadType == 111 || cfg.payloadType == 96) && p != [] && |p| <= room
    ensures var pad := PadOf(cfg, draw, noise);
            && Wrapped(l.aead, l.key, p, cfg, h, Some(draw), Some(noise)) == Ok(Wire(l.aead, l.key, p, l.payloadType, h, pad))
            && (Returns(l, cfg, w, h, room, p, draw, noise) <==> WireFits(p, pad, room) && |pad| <= 254)
  {
    DeliveredExactly(l, w, h, p, PadOf(cfg, draw, noise), room);
    hide Wire, OutcomeOf, Passes, WireFits;
  }

  lemma SmallPaddingReturns(l: Link, cfg: Config, w: Window, h: Header, room: nat, p: Bytes, draw: Byte, noise: nat -> Byte)
    requires l.aead.Ideal() && |l.key| == KEY_LEN && l.payloadType == cfg.payloadType && Passes(w, h)
    requires (cfg.payloadType == 111 || cfg.payloadType == 96) && p != [] && |p| <= room && cfg.paddingMax <= 52
    ensures Returns(l, cfg, w, h, room, p, draw, noise)
  {
    hide Returns, Passes;
    ReturnsExactly(l, cfg, w, h, room, p, draw, noise);
    if cfg.paddingMax > 0 {
      Remainder(draw, cfg.paddingMax);
    }
    assert |PadOf(cfg, draw, noise)| <= 51;
    hide PadOf;
  }

  /** A full buffer and a draw of 52 bytes of padding: the packet is one byte too
      long, and Read fails. */
  lemma LargePaddingLoses(l: Link, cfg: Config, w: Window, h: Header, room: nat, p: Bytes, noise: nat -> Byte)
    requires l.aead.Ideal() && |l.key| == KEY_LEN && l.payloadType == cfg.payloadType && Passes(w, h)
    requires (cfg.payloadType == 111 || cfg.payloadType == 96) && p != [] && |p| == room && cfg.paddingMax > 52
    ensures var r := Wrapped(l.aead, l.key, p, cfg, h, Some(52), Some(noise));
            r.Ok? && OutcomeOf(l.aead, l.key, w, r.value, room) == Failed
    ensures !Returns(l, cfg, w, h, room, p, 52, noise)
  {
    hide Returns, Passes;
    ReturnsExactly(l, cfg, w, h, room, p, 52, noise);
    Remainder(52, cfg.paddingMax);
    var pad := PadOf(cfg, 52, noise);
    assert pad == Noise(52, noise);
    DeliveredExactly(l, w, h, p, pad, room);
    hide PadOf, Noise, Wrapped, Wire, OutcomeOf;
  }

  /** Read's 80 spare bytes are enough for every payload, draw and noise if and
      only if at most 52 is allowed as PaddingMax. */
  lemma ReturnsAllExactly(l: Link, cfg: Config, w: Window, h: Header, room: nat)
    requires l.aead.Ideal() && |l.key| == KEY_LEN && l.payloadType == cfg.payloadType && Passes(w, h)
    requires (cfg.payloadType == 111 || cfg.payloadType == 96) && room > 0
    ensures ReturnsAll(l, cfg, w, h, room) <==> cfg.paddingMax <= 52
  {
    hide Returns, Passes;
    if cfg.paddingMax <= 52 {
      forall p: Bytes, draw: Byte, noise: nat -> Byte | p != [] && |p| <= room
        ensures Returns(l, cfg, w, h, room, p, draw, noise)
      {
        SmallPaddingReturns(l, cfg, w, h, room, p, draw, noise);
      }
    } else {
      var p: Bytes := seq(room, _ => 0);
      LargePaddingLoses(l, cfg, w, h, room, p, _ => 0);
    }
  }

  /** Audio mode is safe, video mode is not. */
  lemma VideoLoses(l: Link, ssrc: Word32, video: bool, w: Window, h: Header, room: nat)
    requires l.aead.Ideal() && |l.key| == KEY_LEN && Passes(w, h) && room > 0
    requires l.payloadType == NewConfig(ssrc, video).payloadType
    ensures ReturnsAll(l, NewConfig(ssrc, video), w, h, room) <==> !video
  {
    hide ReturnsAll, Passes;
    ReturnsAllExactly(l, NewConfig(ssrc, video), w, h, room);
  }

  lemma PassedInTurn(hs: seq<Header>, i: nat)
    requires AllPass(hs) && i < |hs|
    ensures Passes(After(hs[..i]), hs[i]) && After(hs[..i + 1]) == Next(After(hs[..i]), hs[i])
  {
    assert Accepted(hs, i);
    assert hs[..i + 1] == hs[..i] + [hs[i]];
    LongerRun(hs[..i], hs[i]);
    hide Passes, Next;
  }

  /** Liveness: of genuine packets, reordered within the window's limits, every
      one that fits and counts its padding is delivered, and no other. */
  lemma GenuineIsDelivered(l: Link, cs: seq<G.Counter>, i: nat, p: Bytes, pad: Bytes, room: nat)
    requires l.aead.Ideal() && |l.key| == KEY_LEN && (l.payloadType == 111 || l.payloadType == 96)
    requires G.Safe(l.sender, cs) && i < |cs|
    requires p != [] && |p| <= room
    ensures var hs := G.Headers(l.sender, cs);
            var w, wire := After(hs[..i]), Wire(l.aead, l.key, p, l.payloadType, hs[i], pad);
            var outcome := OutcomeOf(l.aead, l.key, w, wire, room);
            && (outcome == Returned(p) <==> WireFits(p, pad, room) && |pad| <= 254)
            && (outcome == Failed <==> !WireFits(p, pad, room))
            && (WireFits(p, pad, room) && |pad| <= 254 ==>
                  WindowOf(l.aead, l.key, w, wire, room) == After(hs[..i + 1]))
  {
    hide *;
    var hs := G.Headers(l.sender, cs);
    G.SafeIsAccepted(l.sender, cs);
    G.AcceptedIsAllPass(l.sender, cs);
    PassedInTurn(hs, i);
    DeliveredExactly(l, After(hs[..i]), hs[i], p, pad, room);
  }

  // ----- From Write to Read -----

  function Writes(ps: seq<Bytes>): (es: seq<Event>)
    ensures |es| == |ps|
  {
    seq(|ps|, i requires 0 <= i < |ps| => Write(ps[i], true))
  }

  function AllWritten(ps: seq<Bytes>): (w: seq<Option<Bytes>>)
    ensures |w| == |ps|
  {
    seq(|ps|, i requires 0 <= i < |ps| => Some(ps[i]))
  }

  /** A packet on its way: its counter and the padding it was given. */
  datatype Transit = Transit(c: G.Counter, pad: Bytes)

  function Counters(ts: seq<Transit>): (cs: seq<G.Counter>)
    ensures |cs| == |ts|
  {
    seq(|ts|, i requires 0 <= i < |ts| => ts[i].c)
  }

  predicate OnTheWay(ps: seq<Bytes>, t: Transit, room: nat) {
    t.c < |ps| && |ps[t.c]| <= room && WireFits(ps[t.c], t.pad, room) && |t.pad| <= 254
  }

  function Arrival(l: Link, ps: seq<Bytes>, t: Transit, room: nat): Event
    requires OnTheWay(ps, t, room)
  {
    Arrive(Wire(l.aead, l.key, ps[t.c], l.payloadType, HeaderOf(l.sender, t.c), t.pad), room)
  }

  function Arrivals(l: Link, ps: seq<Bytes>, ts: seq<Transit>, room: nat): (es: seq<Event>)
    requires forall t :: t in ts ==> OnTheWay(ps, t, room)
    ensures |es| == |ts|
  {
    seq(|ts|, i requires 0 <= i < |ts| => Arrival(l, ps, ts[i], room))
  }

  lemma RunAppend(l: Link, events: seq<Event>, e: Event)
    ensures Run(l, events + [e]) == Step(l, Run(l, events), e)
  {
  }

  lemma {:induction false} WritesAreWritten(l: Link, ps: seq<Bytes>)
    requires forall p :: p in ps ==> p != []
    ensures Run(l, Writes(ps)) == Start.(written := AllWritten(ps))
  {
    if ps != [] {
      var n := |ps| - 1;
      assert ps[n] in ps && forall p :: p in ps[..n] ==> p in ps;
      WritesAreWritten(l, ps[..n]);
      assert Writes(ps) == Writes(ps[..n]) + [Write(ps[n], true)];
      RunAppend(l, Writes(ps[..n]), Write(ps[n], true));
      assert AllWritten(ps) == AllWritten(ps[..n]) + [Some(ps[n])];
    }
  }

  /** What the system has become once the packets of `ts` have arrived. */
  ghost predicate ArrivedAt(l: Link, ps: seq<Bytes>, ts: seq<Transit>, s: System) {
    && s.reading && s.written == AllWritten(ps)
    && s.arrivals == G.Headers(l.sender, Counters(ts)) && s.window == After(s.arrivals)
    && |s.got| == |ts| && forall k :: 0 <= k < |ts| ==> ts[k].c < |ps| && s.got[k] == Delivery(k, ps[ts[k].c])
  }

  lemma NextArrives(l: Link, ps: seq<Bytes>, ts: seq<Transit>, t: Transit, room: nat, s: System)
    requires l.aead.Ideal() && |l.key| == KEY_LEN && (l.payloadType == 111 || l.payloadType == 96)
    requires ArrivedAt(l, ps, ts, s) && OnTheWay(ps, t, room) && ps[t.c] != []
    requires G.Safe(l.sender, Counters(ts + [t]))
    ensures ArrivedAt(l, ps, ts + [t], Step(l, s, Arrival(l, ps, t, room)))
  {
    hide *;
    var all, n := ts + [t], |ts|;
    var hs := G.Headers(l.sender, Counters(all));
    CountersGrow(l, ts, t);
    CounterInRange(ps, t, room);
    PacketFits(ps, t, room);
    var wire := Wire(l.aead, l.key, ps[t.c], l.payloadType, hs[n], t.pad);
    ArrivedMeans(l, ps, ts, s);
    GenuineIsDelivered(l, Counters(all), n, ps[t.c], t.pad, room);
    WireHeader(l, ps[t.c], hs[n], t.pad);
    StepReturns(l, s, wire, room, ps[t.c]);
    ArrivalIs(l, ps, t, room);
    OneMoreArrived(l, ps, ts, t, s, Step(l, s, Arrival(l, ps, t, room)));
  }

  lemma CountersGrow(l: Link, ts: seq<Transit>, t: Transit)
    ensures Counters(ts + [t]) == Counters(ts) + [t.c]
    ensures var hs, n := G.Headers(l.sender, Counters(ts + [t])), |ts|;
            && hs == G.Headers(l.sender, Counters(ts)) + [HeaderOf(l.sender, t.c)]
            && |hs| == n + 1 && hs[..n] == G.Headers(l.sender, Counters(ts)) && hs[..n + 1] == hs
            && hs[n] == HeaderOf(l.sender, t.c)
  {
  }

  lemma PacketFits(ps: seq<Bytes>, t: Transit, room: nat)
    requires OnTheWay(ps, t, room)
    ensures t.c < |ps| && |ps[t.c]| <= room && WireFits(ps[t.c], t.pad, room) && |t.pad| <= 254
  {
  }

  lemma ArrivedMeans(l: Link, ps: seq<Bytes>, ts: seq<Transit>, s: System)
    requires ArrivedAt(l, ps, ts, s)
    ensures s.reading && s.arrivals == G.Headers(l.sender, Counters(ts)) && s.window == After(s.arrivals)
  {
  }

  lemma ArrivalIs(l: Link, ps: seq<Bytes>, t: Transit, room: nat)
    requires OnTheWay(ps, t, room) && t.c < |ps|
    ensures Arrival(l, ps, t, room)
         == Arrive(Wire(l.aead, l.key, ps[t.c], l.payloadType, HeaderOf(l.sender, t.c), t.pad), room)
  {
  }

  /** What Step makes of a packet that is returned. */
  lemma StepReturns(l: Link, s: System, wire: Bytes, room: nat, p: Bytes)
    requires s.reading && |wire| >= 12 && OutcomeOf(l.aead, l.key, s.window, wire, room) == Returned(p)
    ensures Step(l, s, Arrive(wire, room))
         == System(s.written, WindowOf(l.aead, l.key, s.window, wire, room), s.arrivals + [HeaderFrom(wire)],
                   s.got + [Delivery(|s.arrivals|, p)], true)
  {
    hide Unwrap, Passes, Next, HeaderFrom;
  }

  lemma OneMoreArrived(l: Link, ps: seq<Bytes>, ts: seq<Transit>, t: Transit, s: System, next: System)
    requires ArrivedAt(l, ps, ts, s) && t.c < |ps|
    requires next == System(s.written, After(G.Headers(l.sender, Counters(ts + [t]))),
                            s.arrivals + [HeaderOf(l.sender, t.c)], s.got + [Delivery(|s.arrivals|, ps[t.c])], true)
    ensures ArrivedAt(l, ps, ts + [t], next)
  {
    CountersGrow(l, ts, t);
    hide HeaderOf, After, G.Headers;
  }

  lemma WireHeader(l: Link, p: Bytes, h: Header, pad: Bytes)
    requires l.aead.Ideal()
    ensures var w := Wire(l.aead, l.key, p, l.payloadType, h, pad); |w| >= 12 && HeaderFrom(w) == h
  {
    WrappedLooksLikeRtp(l.aead, l.key, p, l.payloadType, h, pad);
  }

  /** From end to end: payloads that were written, whose packets arrive in an
      order that loses nothing and fit the buffers, are returned by Read, each as
      it was written, in order of arrival. */
  lemma {:induction false} EndToEnd(l: Link, ps: seq<Bytes>, ts: seq<Transit>, room: nat)
    requires l.aead.Ideal() && |l.key| == KEY_LEN && (l.payloadType == 111 || l.payloadType == 96)
    requires (forall p :: p in ps ==> p != []) && (forall t :: t in ts ==> OnTheWay(ps, t, room))
    requires G.Safe(l.sender, Counters(ts))
    ensures ArrivedAt(l, ps, ts, Run(l, Writes(ps) + Arrivals(l, ps, ts, room)))
  {
    hide *;
    if ts == [] {
      NoneArrived(l, ps, room);
    } else {
      var n := |ts| - 1;
      var front, t := ts[..n], ts[n];
      assert t in ts && forall x :: x in front ==> x in ts;
      SafeBefore(l, ts);
      EndToEnd(l, ps, front, room);
      var events := Writes(ps) + Arrivals(l, ps, front, room);
      LastArrival(l, ps, ts, room);
      RunAppend(l, events, Arrival(l, ps, t, room));
      assert ts == front + [t];
      CounterInRange(ps, t, room);
      NextArrives(l, ps, front, t, room, Run(l, events));
    }
  }

  lemma NoneArrived(l: Link, ps: seq<Bytes>, room: nat)
    requires forall p :: p in ps ==> p != []
    ensures ArrivedAt(l, ps, [], Run(l, Writes(ps) + Arrivals(l, ps, [], room)))
  {
    WritesAreWritten(l, ps);
    assert Writes(ps) + Arrivals(l, ps, [], room) == Writes(ps);
    hide Run, Writes, AllWritten, Arrivals;
  }

  lemma LastArrival(l: Link, ps: seq<Bytes>, ts: seq<Transit>, room: nat)
    requires ts != [] && forall t :: t in ts ==> OnTheWay(ps, t, room)
    ensures var n := |ts| - 1;
            && (forall t :: t in ts[..n] ==> OnTheWay(ps, t, room)) && OnTheWay(ps, ts[n], room)
            && Writes(ps) + Arrivals(l, ps, ts, room)
               == Writes(ps) + Arrivals(l, ps, ts[..n], room) + [Arrival(l, ps, ts[n], room)]
  {
    var n := |ts| - 1;
    hide OnTheWay, Writes, Arrival;
    assert ts[n] in ts && forall t :: t in ts[..n] ==> t in ts;
    assert Arrivals(l, ps, ts, room) == Arrivals(l, ps, ts[..n], room) + [Arrival(l, ps, ts[n], room)];
  }

  lemma CounterInRange(ps: seq<Bytes>, t: Transit, room: nat)
    requires OnTheWay(ps, t, room)
    ensures t.c < |ps| && ps[t.c] in ps
  {
  }

  lemma SafeBefore(l: Link, ts: seq<Transit>)
    requires ts != [] && G.Safe(l.sender, Counters(ts))
    ensures G.Safe(l.sender, Counters(ts[..|ts| - 1]))
  {
    var n := |ts| - 1;
    assert Counters(ts[..n]) == Counters(ts)[..n];
    if n > 0 {
      G.PrefixIsSafe(l.sender, Counters(ts), n);
    } else {
      assert Counters(ts[..n]) == [];
    }
  }
}
