/** Packet buffers and channels under every interleaving of the dispatcher's
    readLoop and writeLoop, Register, Unregister, and each session's writer,
    reader and keepalive goroutines (internal/core/dispatcher.go, session.go). */
module Lifecycle {
  import opened Sets
  import opened Wrappers
  import D = Dispatcher

  const RETURN_CAP: nat := 512 // returnChBuf

  // Every goroutine has a program counter and a local variable `pkt`. The local
  // keeps its value when the buffer has been sent or put; what the goroutine does
  // next is decided by the program counter alone.

  /** readLoop: under the lock it picks a slot, tries to send to it, and goes on
      to the next one or drops the packet. */
  datatype DispPc = Reading | Got | Locked | Picked(sid: nat, small: bool) | Placed | Spilling

  datatype TaskPc = Idle | Holding | Done

  datatype WriterPc = Waiting | Writing | DrainPrio | DroppingPrio | DrainSend | DroppingSend | Ended

  /** A slot's life: Register, the session, Unregister with its critical section,
      the close, and the loop that empties SendCh. */
  datatype Phase = Registering | Active | Leaving | Removed | Draining | Returning | Finished

  /** Dispatcher.mu and its owner. */
  datatype Lock = Free | ByLoop | BySlot(sid: nat)

  /** A slot and the goroutines of its session. `late` lists what was sent to
      PrioCh after the writer's last look at it. */
  datatype Session = Session(phase: Phase, closed: bool, send: seq<nat>, prio: seq<nat>, late: seq<nat>,
                             writer: WriterPc, writerPkt: nat, reader: TaskPc, readerPkt: nat,
                             keeper: TaskPc, keeperPkt: nat, drainPkt: nat)

  /** `next` numbers the buffers ever made. */
  datatype State = State(pool: seq<nat>, returnCh: seq<nat>, next: nat, mu: Lock, workers: seq<nat>,
                         disp: DispPc, dispPkt: nat, loop: TaskPc, loopPkt: nat,
                         sessions: map<nat, Session>, panicked: bool)

  const Start: State := State([], [], 0, Free, [], Reading, 0, Idle, 0, map[], false)

  const NewSession: Session := Session(Registering, false, [], [], [], Waiting, 0, Idle, 0, Idle, 0, 0)

  datatype DispAction =
    | DispGet(from: Option<nat>) | DispLock | DispPick(sid: nat, small: bool) | DispTry
    | DispDrop | DispUnlock | DispNoWorkers | DispSpill

  datatype LoopAction = LoopTake | LoopPut

  datatype WriterAction = TakePrio | TakeSend | WriterPut | WriterStop | PrioEmpty | SendEmpty

  datatype ReaderAction = ReaderGet(from: Option<nat>) | ReaderReturn | ReaderPut | ReaderEnd

  datatype KeeperAction = KeeperGet(from: Option<nat>) | KeeperSend | KeeperPut | KeeperEnd

  /** The session's own goroutine, in Register and Unregister. */
  datatype OwnerAction = Join | Leave | CutOut | Close | DrainTake | DrainPut | Finish

  datatype Action =
    | Disp(d: DispAction)
    | Loop(l: LoopAction)
    | Open(sid: nat) // takes the lock in Register
    | Writer(sid: nat, w: WriterAction)
    | Reader(sid: nat, r: ReaderAction)
    | Keeper(sid: nat, k: KeeperAction)
    | Owner(sid: nat, o: OwnerAction)

  function Without<T>(q: seq<T>, i: nat): seq<T>
    requires i < |q|
  {
    q[..i] + q[i + 1..]
  }

  /** Unregister's loop: the first worker that is this slot is cut from the list. */
  function CutFrom(ws: seq<nat>, sid: nat): seq<nat> {
    if ws == [] then [] else if ws[0] == sid then ws[1..] else [ws[0]] + CutFrom(ws[1..], sid)
  }

  // ----- When a goroutine can take its next step -----

  // Its program counter is there, the channel is ready, the lock is free. No step
  // asks who owns a buffer, whether a channel is closed, or, once a slot has been
  // picked, whether the slot is still registered.

  predicate CanGet(s: State, from: Option<nat>) { from.Some? ==> from.value < |s.pool| }

  predicate CanDisp(s: State, d: DispAction) {
    match d
    case DispGet(from) => s.disp == Reading && CanGet(s, from)
    case DispLock => s.disp == Got && s.mu == Free
    case DispPick(sid, small) => s.disp == Locked && sid in s.workers
    case DispTry => s.disp.Picked? && s.disp.sid in s.sessions
    case DispDrop => s.disp == Locked && s.workers != []
    case DispUnlock => s.disp == Placed
    case DispNoWorkers => s.disp == Locked && s.workers == []
    case DispSpill => s.disp == Spilling
  }

  predicate CanLoop(s: State, l: LoopAction) {
    match l
    case LoopTake => s.loop == Idle && s.returnCh != []
    case LoopPut => s.loop == Holding
  }

  predicate CanWrite(x: Session, w: WriterAction) {
    match w
    case TakePrio => (x.writer == Waiting || x.writer == DrainPrio) && x.prio != []
    case TakeSend => (x.writer == Waiting || x.writer == DrainSend) && x.send != []
    case WriterPut => HasPkt(x.writer)
    case WriterStop => x.writer == Waiting
    case PrioEmpty => x.writer == DrainPrio && x.prio == []
    case SendEmpty => x.writer == DrainSend && x.send == []
  }

  predicate CanRead(s: State, x: Session, r: ReaderAction) {
    match r
    case ReaderGet(from) => x.reader == Idle && CanGet(s, from)
    case ReaderReturn => x.reader == Holding && |s.returnCh| < RETURN_CAP
    case ReaderPut => x.reader == Holding
    case ReaderEnd => x.reader == Idle
  }

  predicate CanKeep(s: State, x: Session, k: KeeperAction) {
    match k
    case KeeperGet(from) => x.keeper == Idle && CanGet(s, from)
    case KeeperSend => x.keeper == Holding && |x.prio| < D.PRIO_CAP
    case KeeperPut => x.keeper == Holding
    case KeeperEnd => x.keeper == Idle
  }

  /** proxyWg.Wait(). */
  predicate AllDone(x: Session) { x.writer == Ended && x.reader == Done && x.keeper == Done }

  predicate CanOwn(s: State, x: Session, o: OwnerAction) {
    match o
    case Join => x.phase == Registering
    case Leave => x.phase == Active && AllDone(x) && s.mu == Free
    case CutOut => x.phase == Leaving
    case Close => x.phase == Removed
    case DrainTake => x.phase == Draining && x.send != []
    case DrainPut => x.phase == Returning
    case Finish => x.phase == Draining && x.send == []
  }

  predicate Started(s: State, sid: nat) { sid in s.sessions && s.sessions[sid].phase != Registering }

  predicate Enabled(s: State, a: Action) {
    match a
    case Disp(d) => CanDisp(s, d)
    case Loop(l) => CanLoop(s, l)
    case Open(sid) => sid !in s.sessions && s.mu == Free
    case Writer(sid, w) => Started(s, sid) && CanWrite(s.sessions[sid], w)
    case Reader(sid, r) => Started(s, sid) && CanRead(s, s.sessions[sid], r)
    case Keeper(sid, k) => Started(s, sid) && CanKeep(s, s.sessions[sid], k)
    case Owner(sid, o) => sid in s.sessions && CanOwn(s, s.sessions[sid], o)
  }

  // ----- What a step does -----

  /** getPktBuf: some buffer of the pool, or a new one. */
  function Taken(s: State, from: Option<nat>): (nat, State)
    requires CanGet(s, from)
  {
    if from.Some? then (s.pool[from.value], s.(pool := Without(s.pool, from.value)))
    else (s.next, s.(next := s.next + 1))
  }

  /** putPktBuf: whatever the local variable refers to goes to the pool. */
  function Put(s: State, pkt: nat): State { s.(pool := s.pool + [pkt]) }

  function With(s: State, sid: nat, x: Session): State { s.(sessions := s.sessions[sid := x]) }

  predicate PastPrio(w: WriterPc) { w == DrainSend || w == DroppingSend || w == Ended }

  function SentPrio(x: Session, pkt: nat): Session {
    x.(prio := x.prio + [pkt], late := if PastPrio(x.writer) then x.late + [pkt] else x.late)
  }

  /** A send to the picked slot: on a closed SendCh it panics. */
  function Tried(s: State, sid: nat, small: bool): State
    requires sid in s.sessions
  {
    var x := s.sessions[sid];
    if small then
      if |x.prio| < D.PRIO_CAP then With(s, sid, SentPrio(x, s.dispPkt)).(disp := Placed) else s.(disp := Locked)
    else if x.closed then s.(panicked := true)
    else if |x.send| < D.SEND_CAP then With(s, sid, x.(send := x.send + [s.dispPkt])).(disp := Placed)
    else s.(disp := Locked)
  }

  function DispStep(s: State, d: DispAction): State
    requires CanDisp(s, d)
  {
    match d
    case DispGet(from) => var (b, t) := Taken(s, from); t.(dispPkt := b, disp := Got)
    case DispLock => s.(disp := Locked, mu := ByLoop)
    case DispPick(sid, small) => s.(disp := Picked(sid, small))
    case DispTry => Tried(s, s.disp.sid, s.disp.small)
    case DispDrop => Put(s, s.dispPkt).(disp := Placed)
    case DispUnlock => s.(disp := Reading, mu := Free)
    case DispNoWorkers => s.(disp := Spilling, mu := Free)
    case DispSpill => Put(s, s.dispPkt).(disp := Reading)
  }

  function LoopStep(s: State, l: LoopAction): State
    requires CanLoop(s, l)
  {
    match l
    case LoopTake => s.(returnCh := s.returnCh[1..], loopPkt := s.returnCh[0], loop := Holding)
    case LoopPut => Put(s, s.loopPkt).(loop := Idle)
  }

  function WriterStep(s: State, sid: nat, x: Session, w: WriterAction): (t: State)
    requires CanWrite(x, w)
    ensures sid in t.sessions && t.sessions == s.sessions[sid := t.sessions[sid]]
  {
    match w
    case TakePrio =>
      With(s, sid, x.(prio := x.prio[1..], writerPkt := x.prio[0],
                      writer := if x.writer == Waiting then Writing else DroppingPrio))
    case TakeSend =>
      With(s, sid, x.(send := x.send[1..], writerPkt := x.send[0],
                      writer := if x.writer == Waiting then Writing else DroppingSend))
    case WriterPut =>
      Put(With(s, sid, x.(writer := if x.writer == DroppingPrio then DrainPrio
                                    else if x.writer == DroppingSend then DrainSend else Waiting)), x.writerPkt)
    case WriterStop => With(s, sid, x.(writer := DrainPrio))
    case PrioEmpty => With(s, sid, x.(writer := DrainSend))
    case SendEmpty => With(s, sid, x.(writer := Ended))
  }

  function ReaderStep(s: State, sid: nat, x: Session, r: ReaderAction): (t: State)
    requires CanRead(s, x, r)
    ensures sid in t.sessions && t.sessions == s.sessions[sid := t.sessions[sid]]
  {
    match r
    case ReaderGet(from) => var (b, t) := Taken(s, from); With(t, sid, x.(readerPkt := b, reader := Holding))
    case ReaderReturn => With(s, sid, x.(reader := Idle)).(returnCh := s.returnCh + [x.readerPkt])
    case ReaderPut => Put(With(s, sid, x.(reader := Idle)), x.readerPkt)
    case ReaderEnd => With(s, sid, x.(reader := Done))
  }

  function KeeperStep(s: State, sid: nat, x: Session, k: KeeperAction): (t: State)
    requires CanKeep(s, x, k)
    ensures sid in t.sessions && t.sessions == s.sessions[sid := t.sessions[sid]]
  {
    match k
    case KeeperGet(from) => var (b, t) := Taken(s, from); With(t, sid, x.(keeperPkt := b, keeper := Holding))
    case KeeperSend => With(s, sid, SentPrio(x, x.keeperPkt).(keeper := Idle))
    case KeeperPut => Put(With(s, sid, x.(keeper := Idle)), x.keeperPkt)
    case KeeperEnd => With(s, sid, x.(keeper := Done))
  }

  function OwnerStep(s: State, sid: nat, x: Session, o: OwnerAction): (t: State)
    requires CanOwn(s, x, o)
    ensures sid in t.sessions && t.sessions == s.sessions[sid := t.sessions[sid]]
  {
    match o
    case Join => With(s, sid, x.(phase := Active)).(workers := s.workers + [sid], mu := Free)
    case Leave => With(s, sid, x.(phase := Leaving)).(mu := BySlot(sid))
    case CutOut => With(s, sid, x.(phase := Removed)).(workers := CutFrom(s.workers, sid), mu := Free)
    case Close => With(s, sid, x.(phase := Draining, closed := true)).(panicked := s.panicked || x.closed)
    case DrainTake => With(s, sid, x.(phase := Returning, send := x.send[1..], drainPkt := x.send[0]))
    case DrainPut => Put(With(s, sid, x.(phase := Draining)), x.drainPkt)
    case Finish => With(s, sid, x.(phase := Finished))
  }

  /** An action that cannot happen changes nothing. */
  function Step(s: State, a: Action): State {
    if !Enabled(s, a) then s
    else
      match a
      case Disp(d) => DispStep(s, d)
      case Loop(l) => LoopStep(s, l)
      case Open(sid) => With(s, sid, NewSession).(mu := BySlot(sid))
      case Writer(sid, w) => WriterStep(s, sid, s.sessions[sid], w)
      case Reader(sid, r) => ReaderStep(s, sid, s.sessions[sid], r)
      case Keeper(sid, k) => KeeperStep(s, sid, s.sessions[sid], k)
      case Owner(sid, o) => OwnerStep(s, sid, s.sessions[sid], o)
  }

  function Run(actions: seq<Action>): State {
    if actions == [] then Start else Step(Run(actions[..|actions| - 1]), actions[|actions| - 1])
  }

  // ----- Who refers to a buffer -----

  /** Everywhere a buffer can be in use: the pool, a channel, or the local of a
      goroutine whose program counter says that it still has to hand it on. */
  datatype Place =
    | Pool | DispHand | ReturnCh | LoopHand
    | SlotPlace(sid: nat, part: Part)

  datatype Part = SendCh | PrioCh | WriterHand | ReaderHand | KeeperHand | DrainHand

  predicate HasPkt(w: WriterPc) { w == Writing || w == DroppingPrio || w == DroppingSend }

  predicate DispHas(d: DispPc) { d == Got || d == Locked || d.Picked? || d == Spilling }

  function If(b: bool, pkt: nat): seq<nat> { if b then [pkt] else [] }

  function AtSlot(x: Session, p: Part): seq<nat> {
    match p
    case SendCh => x.send
    case PrioCh => x.prio
    case WriterHand => If(HasPkt(x.writer), x.writerPkt)
    case ReaderHand => If(x.reader == Holding, x.readerPkt)
    case KeeperHand => If(x.keeper == Holding, x.keeperPkt)
    case DrainHand => If(x.phase == Returning, x.drainPkt)
  }

  function At(s: State, p: Place): seq<nat> {
    match p
    case Pool => s.pool
    case DispHand => If(DispHas(s.disp), s.dispPkt)
    case ReturnCh => s.returnCh
    case LoopHand => If(s.loop == Holding, s.loopPkt)
    case SlotPlace(sid, part) => if sid in s.sessions then AtSlot(s.sessions[sid], part) else []
  }

  /** The i-th buffer at `p` went to the end of `q`, and nothing else moved. */
  ghost predicate Moved(s: State, t: State, p: Place, i: nat, q: Place) {
    && i < |At(s, p)| && p != q && t.next == s.next
    && forall r :: At(t, r) ==
         if r == p then Without(At(s, p), i) else if r == q then At(s, q) + [At(s, p)[i]] else At(s, r)
  }

  ghost predicate Made(s: State, t: State, q: Place) {
    t.next == s.next + 1 && forall r :: At(t, r) == if r == q then At(s, q) + [s.next] else At(s, r)
  }

  ghost predicate Same(s: State, t: State) {
    t.next == s.next && forall r :: At(t, r) == At(s, r)
  }

  /** What an action does to the buffers. */
  datatype Effect = Nothing | Move(p: Place, i: nat, q: Place) | Make(q: Place)

  ghost predicate Happened(s: State, t: State, e: Effect) {
    match e
    case Nothing => Same(s, t)
    case Move(p, i, q) => Moved(s, t, p, i, q)
    case Make(q) => Made(s, t, q)
  }

  function Getting(from: Option<nat>, hand: Place): Effect {
    if from.Some? then Move(Pool, from.value, hand) else Make(hand)
  }

  function DispEffect(s: State, d: DispAction): Effect
    requires CanDisp(s, d)
  {
    match d
    case DispGet(from) => Getting(from, DispHand)
    case DispTry =>
      var x := s.sessions[s.disp.sid];
      if s.disp.small then if |x.prio| < D.PRIO_CAP then Move(DispHand, 0, SlotPlace(s.disp.sid, PrioCh)) else Nothing
      else if !x.closed && |x.send| < D.SEND_CAP then Move(DispHand, 0, SlotPlace(s.disp.sid, SendCh)) else Nothing
    case DispDrop => Move(DispHand, 0, Pool)
    case DispSpill => Move(DispHand, 0, Pool)
    case _ => Nothing
  }

  function WriterEffect(sid: nat, w: WriterAction): Effect {
    match w
    case TakePrio => Move(SlotPlace(sid, PrioCh), 0, SlotPlace(sid, WriterHand))
    case TakeSend => Move(SlotPlace(sid, SendCh), 0, SlotPlace(sid, WriterHand))
    case WriterPut => Move(SlotPlace(sid, WriterHand), 0, Pool)
    case _ => Nothing
  }

  function ReaderEffect(sid: nat, r: ReaderAction): Effect {
    match r
    case ReaderGet(from) => Getting(from, SlotPlace(sid, ReaderHand))
    case ReaderReturn => Move(SlotPlace(sid, ReaderHand), 0, ReturnCh)
    case ReaderPut => Move(SlotPlace(sid, ReaderHand), 0, Pool)
    case ReaderEnd => Nothing
  }

  function KeeperEffect(sid: nat, k: KeeperAction): Effect {
    match k
    case KeeperGet(from) => Getting(from, SlotPlace(sid, KeeperHand))
    case KeeperSend => Move(SlotPlace(sid, KeeperHand), 0, SlotPlace(sid, PrioCh))
    case KeeperPut => Move(SlotPlace(sid, KeeperHand), 0, Pool)
    case KeeperEnd => Nothing
  }

  function OwnerEffect(sid: nat, o: OwnerAction): Effect {
    match o
    case DrainTake => Move(SlotPlace(sid, SendCh), 0, SlotPlace(sid, DrainHand))
    case DrainPut => Move(SlotPlace(sid, DrainHand), 0, Pool)
    case _ => Nothing
  }

  function EffectOf(s: State, a: Action): Effect
    requires Enabled(s, a)
  {
    match a
    case Disp(d) => DispEffect(s, d)
    case Loop(LoopTake) => Move(ReturnCh, 0, LoopHand)
    case Loop(LoopPut) => Move(LoopHand, 0, Pool)
    case Open(_) => Nothing
    case Writer(sid, w) => WriterEffect(sid, w)
    case Reader(sid, r) => ReaderEffect(sid, r)
    case Keeper(sid, k) => KeeperEffect(sid, k)
    case Owner(sid, o) => OwnerEffect(sid, o)
  }

  lemma TryEffects(s: State)
    requires CanDisp(s, DispTry)
    ensures Happened(s, Tried(s, s.disp.sid, s.disp.small), DispEffect(s, DispTry))
  {
  }

  lemma DispGetEffects(s: State, from: Option<nat>)
    requires CanDisp(s, DispGet(from))
    ensures Happened(s, DispStep(s, DispGet(from)), Getting(from, DispHand))
  {
  }

  lemma DispEffects(s: State, d: DispAction)
    requires CanDisp(s, d)
    ensures Happened(s, DispStep(s, d), DispEffect(s, d))
  {
    if d.DispTry? {
      TryEffects(s);
      hide Tried;
    } else if d.DispGet? {
      DispGetEffects(s, d.from);
      hide Taken, Getting;
    }
  }

  lemma LoopEffects(s: State, l: LoopAction)
    requires CanLoop(s, l)
    ensures Happened(s, LoopStep(s, l), EffectOf(s, Loop(l)))
  {
  }

  /** A step that touches one slot and nothing else. */
  lemma SlotSame(s: State, sid: nat, x: Session)
    requires sid in s.sessions && forall r: Part :: AtSlot(x, r) == AtSlot(s.sessions[sid], r)
    ensures Same(s, With(s, sid, x))
  {
  }

  lemma WithinSlot(s: State, sid: nat, x: Session, p: Part, i: nat, q: Part)
    requires sid in s.sessions && i < |AtSlot(s.sessions[sid], p)| && p != q
    requires AtSlot(x, p) == Without(AtSlot(s.sessions[sid], p), i)
    requires AtSlot(x, q) == AtSlot(s.sessions[sid], q) + [AtSlot(s.sessions[sid], p)[i]]
    requires forall r: Part :: r == p || r == q || AtSlot(x, r) == AtSlot(s.sessions[sid], r)
    ensures Moved(s, With(s, sid, x), SlotPlace(sid, p), i, SlotPlace(sid, q))
  {
    hide AtSlot, Without;
  }

  /** A goroutine of the slot takes a buffer from outside. */
  lemma IntoHand(s: State, sid: nat, x: Session, p: Part, from: Option<nat>)
    requires sid in s.sessions && CanGet(s, from)
    requires AtSlot(x, p) == AtSlot(s.sessions[sid], p) + [Taken(s, from).0]
    requires forall r: Part :: r == p || AtSlot(x, r) == AtSlot(s.sessions[sid], r)
    ensures Happened(s, With(Taken(s, from).1, sid, x), Getting(from, SlotPlace(sid, p)))
  {
    hide AtSlot;
  }

  /** A goroutine of the slot hands its buffer out. */
  lemma OutOfHand(s: State, t: State, sid: nat, x: Session, p: Part, q: Place)
    requires sid in s.sessions && |AtSlot(s.sessions[sid], p)| == 1 && (q == Pool || q == ReturnCh)
    requires AtSlot(x, p) == [] && forall r: Part :: r == p || AtSlot(x, r) == AtSlot(s.sessions[sid], r)
    requires t == With(s, sid, x).(pool := t.pool, returnCh := t.returnCh)
    requires var b := AtSlot(s.sessions[sid], p)[0];
             t.pool == s.pool + If(q == Pool, b) && t.returnCh == s.returnCh + If(q == ReturnCh, b)
    ensures Moved(s, t, SlotPlace(sid, p), 0, q)
  {
  }

  lemma WriterTakeEffects(s: State, sid: nat, w: WriterAction)
    requires sid in s.sessions && CanWrite(s.sessions[sid], w) && (w == TakePrio || w == TakeSend)
    ensures Happened(s, WriterStep(s, sid, s.sessions[sid], w), WriterEffect(sid, w))
  {
    var x := WriterStep(s, sid, s.sessions[sid], w).sessions[sid];
    WithinSlot(s, sid, x, if w == TakePrio then PrioCh else SendCh, 0, WriterHand);
    hide Moved;
  }

  lemma WriterPutEffects(s: State, sid: nat)
    requires sid in s.sessions && CanWrite(s.sessions[sid], WriterPut)
    ensures Happened(s, WriterStep(s, sid, s.sessions[sid], WriterPut), WriterEffect(sid, WriterPut))
  {
    var t := WriterStep(s, sid, s.sessions[sid], WriterPut);
    OutOfHand(s, t, sid, t.sessions[sid], WriterHand, Pool);
    hide Moved;
  }

  lemma WriterEffects(s: State, sid: nat, w: WriterAction)
    requires sid in s.sessions && CanWrite(s.sessions[sid], w)
    ensures Happened(s, WriterStep(s, sid, s.sessions[sid], w), WriterEffect(sid, w))
  {
    match w
    case TakePrio => WriterTakeEffects(s, sid, w); hide *;
    case TakeSend => WriterTakeEffects(s, sid, w); hide *;
    case WriterPut => WriterPutEffects(s, sid); hide *;
    case _ =>
      SlotSame(s, sid, WriterStep(s, sid, s.sessions[sid], w).sessions[sid]);
      hide Same;
  }

  lemma ReaderEffects(s: State, sid: nat, r: ReaderAction)
    requires sid in s.sessions && CanRead(s, s.sessions[sid], r)
    ensures Happened(s, ReaderStep(s, sid, s.sessions[sid], r), ReaderEffect(sid, r))
  {
    var t := ReaderStep(s, sid, s.sessions[sid], r);
    var x := t.sessions[sid];
    hide Moved, Made, Same, At;
    match r
    case ReaderGet(from) => IntoHand(s, sid, x, ReaderHand, from);
    case ReaderReturn => OutOfHand(s, t, sid, x, ReaderHand, ReturnCh);
    case ReaderPut => OutOfHand(s, t, sid, x, ReaderHand, Pool);
    case ReaderEnd => SlotSame(s, sid, x);
  }

  lemma KeeperGetEffects(s: State, sid: nat, from: Option<nat>)
    requires sid in s.sessions && CanKeep(s, s.sessions[sid], KeeperGet(from))
    ensures Happened(s, KeeperStep(s, sid, s.sessions[sid], KeeperGet(from)), KeeperEffect(sid, KeeperGet(from)))
  {
    IntoHand(s, sid, KeeperStep(s, sid, s.sessions[sid], KeeperGet(from)).sessions[sid], KeeperHand, from);
    hide Moved, Made;
  }

  lemma KeeperSendEffects(s: State, sid: nat)
    requires sid in s.sessions && CanKeep(s, s.sessions[sid], KeeperSend)
    ensures Happened(s, KeeperStep(s, sid, s.sessions[sid], KeeperSend), KeeperEffect(sid, KeeperSend))
  {
    WithinSlot(s, sid, KeeperStep(s, sid, s.sessions[sid], KeeperSend).sessions[sid], KeeperHand, 0, PrioCh);
    hide Moved;
  }

  lemma KeeperEffects(s: State, sid: nat, k: KeeperAction)
    requires sid in s.sessions && CanKeep(s, s.sessions[sid], k)
    ensures Happened(s, KeeperStep(s, sid, s.sessions[sid], k), KeeperEffect(sid, k))
  {
    match k
    case KeeperGet(from) => KeeperGetEffects(s, sid, from); hide *;
    case KeeperSend => KeeperSendEffects(s, sid); hide *;
    case KeeperPut =>
      var t := KeeperStep(s, sid, s.sessions[sid], k);
      OutOfHand(s, t, sid, t.sessions[sid], KeeperHand, Pool);
      hide Moved;
    case KeeperEnd =>
      SlotSame(s, sid, KeeperStep(s, sid, s.sessions[sid], k).sessions[sid]);
      hide Same;
  }

  lemma DrainTakeEffects(s: State, sid: nat)
    requires sid in s.sessions && CanOwn(s, s.sessions[sid], DrainTake)
    ensures Happened(s, OwnerStep(s, sid, s.sessions[sid], DrainTake), OwnerEffect(sid, DrainTake))
  {
    WithinSlot(s, sid, OwnerStep(s, sid, s.sessions[sid], DrainTake).sessions[sid], SendCh, 0, DrainHand);
    hide Moved;
  }

  lemma DrainPutEffects(s: State, sid: nat)
    requires sid in s.sessions && CanOwn(s, s.sessions[sid], DrainPut)
    ensures Happened(s, OwnerStep(s, sid, s.sessions[sid], DrainPut), OwnerEffect(sid, DrainPut))
  {
    var t := OwnerStep(s, sid, s.sessions[sid], DrainPut);
    OutOfHand(s, t, sid, t.sessions[sid], DrainHand, Pool);
    hide Moved;
  }

  lemma OwnerEffects(s: State, sid: nat, o: OwnerAction)
    requires sid in s.sessions && CanOwn(s, s.sessions[sid], o)
    ensures Happened(s, OwnerStep(s, sid, s.sessions[sid], o), OwnerEffect(sid, o))
  {
    match o
    case DrainTake => DrainTakeEffects(s, sid); hide *;
    case DrainPut => DrainPutEffects(s, sid); hide *;
    case _ =>
      PhaseHoldsNothing(s.sessions[sid], OwnerStep(s, sid, s.sessions[sid], o).sessions[sid]);
      hide AtSlot, CutFrom;
  }

  /** Phases other than Returning hold no buffer. */
  lemma PhaseHoldsNothing(x: Session, y: Session)
    requires x.phase != Returning && y.phase != Returning && y == x.(phase := y.phase, closed := y.closed)
    ensures forall r: Part :: AtSlot(y, r) == AtSlot(x, r)
  {
  }

  lemma StepEffects(s: State, a: Action)
    requires Enabled(s, a)
    ensures Happened(s, Step(s, a), EffectOf(s, a))
  {
    match a
    case Disp(d) => DispEffects(s, d);
    case Loop(l) => LoopEffects(s, l);
    case Open(sid) =>
    case Writer(sid, w) => WriterEffects(s, sid, w);
    case Reader(sid, r) => ReaderEffects(s, sid, r);
    case Keeper(sid, k) => KeeperEffects(s, sid, k);
    case Owner(sid, o) => OwnerEffects(s, sid, o);
  }

  // ----- What every interleaving keeps -----

  /** Each buffer is in use in one place, once. */
  ghost predicate Exclusive(s: State) {
    forall p, q, i, j :: 0 <= i < |At(s, p)| && 0 <= j < |At(s, q)| && At(s, p)[i] == At(s, q)[j] ==> p == q && i == j
  }

  /** Every buffer ever made is somewhere, and only made buffers are. */
  ghost predicate Accounted(s: State) {
    && (forall p, i :: 0 <= i < |At(s, p)| ==> At(s, p)[i] < s.next)
    && forall b: nat :: b < s.next ==> Somewhere(s, b)
  }

  ghost predicate Somewhere(s: State, b: nat) { exists p :: b in At(s, p) }

  predicate UnderLock(d: DispPc) { d == Locked || d.Picked? || d == Placed }

  predicate OwnsLock(x: Session) { x.phase == Registering || x.phase == Leaving }

  /** What a slot's phase says about its channels and goroutines. */
  predicate WellFormed(x: Session) {
    && (x.closed <==> x.phase == Draining || x.phase == Returning || x.phase == Finished)
    && (x.phase == Registering || x.phase == Active || AllDone(x))
    && (x.phase == Finished ==> x.send == [])
    && (if PastPrio(x.writer) then x.prio == x.late else x.late == [])
  }

  predicate Listed(s: State, sid: nat) {
    sid in s.sessions && (s.sessions[sid].phase == Active || s.sessions[sid].phase == Leaving)
  }

  /** The lock belongs to whoever is in a critical section; the worker list holds
      live slots only, the picked one among them; nothing has panicked. */
  ghost predicate Orderly(s: State) {
    && !s.panicked
    && (UnderLock(s.disp) <==> s.mu == ByLoop)
    && (forall sid :: s.mu == BySlot(sid) <==> sid in s.sessions && OwnsLock(s.sessions[sid]))
    && Distinct(s.workers)
    && (forall sid :: sid in s.workers ==> Listed(s, sid))
    && (s.disp.Picked? ==> s.disp.sid in s.workers)
    && (forall sid :: sid in s.sessions ==> WellFormed(s.sessions[sid]))
  }

  ghost predicate Invariant(s: State) { Exclusive(s) && Accounted(s) && Orderly(s) }

  /** Where the m-th buffer at `x` after a move was before it. */
  function Source(p: Place, i: nat, q: Place, filled: nat, x: Place, m: nat): (Place, nat) {
    if x == p then (p, if m < i then m else m + 1)
    else if x == q && m == filled then (p, i)
    else (x, m)
  }

  lemma CameFrom(s: State, t: State, p: Place, i: nat, q: Place, x: Place, m: nat)
    requires Moved(s, t, p, i, q) && m < |At(t, x)|
    ensures var (y, n) := Source(p, i, q, |At(s, q)|, x, m); n < |At(s, y)| && At(s, y)[n] == At(t, x)[m]
  {
    hide At;
  }

  lemma SourcesDiffer(p: Place, i: nat, q: Place, filled: nat, x: Place, m: nat, y: Place, n: nat)
    requires p != q && (x == q ==> m <= filled) && (y == q ==> n <= filled)
    requires Source(p, i, q, filled, x, m) == Source(p, i, q, filled, y, n)
    ensures x == y && m == n
  {
  }

  lemma MoveKeepsExclusive(s: State, t: State, p: Place, i: nat, q: Place)
    requires Moved(s, t, p, i, q) && Exclusive(s)
    ensures Exclusive(t)
  {
    var filled := |At(s, q)|;
    assert |At(t, q)| == filled + 1;
    hide At, Source;
    forall x, y, m, n | 0 <= m < |At(t, x)| && 0 <= n < |At(t, y)| && At(t, x)[m] == At(t, y)[n]
      ensures x == y && m == n
    {
      // trace both references back to the state before the move
      CameFrom(s, t, p, i, q, x, m);
      CameFrom(s, t, p, i, q, y, n);
      hide Moved;
      var (x', m') := Source(p, i, q, filled, x, m);
      var (y', n') := Source(p, i, q, filled, y, n);
      assert At(s, x')[m'] == At(s, y')[n'];
      SourcesDiffer(p, i, q, filled, x, m, y, n);
    }
  }

  /** Where the m-th buffer at `x` before a move is after it. */
  lemma WentTo(s: State, t: State, p: Place, i: nat, q: Place, x: Place, m: nat) returns (y: Place, n: nat)
    requires Moved(s, t, p, i, q) && m < |At(s, x)|
    ensures n < |At(t, y)| && At(t, y)[n] == At(s, x)[m]
  {
    hide At;
    if x != p {
      y, n := x, m;
    } else if m == i {
      y, n := q, |At(s, q)|;
    } else {
      y, n := p, if m < i then m else m - 1;
    }
  }

  lemma MoveKeepsAccounted(s: State, t: State, p: Place, i: nat, q: Place)
    requires Moved(s, t, p, i, q) && Accounted(s)
    ensures Accounted(t)
  {
    hide At, Source;
    forall x, m | 0 <= m < |At(t, x)|
      ensures At(t, x)[m] < t.next
    {
      CameFrom(s, t, p, i, q, x, m);
      var (x', m') := Source(p, i, q, |At(s, q)|, x, m);
      assert At(s, x')[m'] < s.next;
    }
    forall b: nat | b < t.next
      ensures Somewhere(t, b)
    {
      assert Somewhere(s, b);
      var x :| b in At(s, x);
      var m :| 0 <= m < |At(s, x)| && At(s, x)[m] == b;
      var y, n := WentTo(s, t, p, i, q, x, m);
      assert At(t, y)[n] == b;
    }
  }

  lemma MakeKeepsExclusive(s: State, t: State, q: Place)
    requires Made(s, t, q) && Exclusive(s) && Accounted(s)
    ensures Exclusive(t)
  {
    hide At;
    forall x, y, m, n | 0 <= m < |At(t, x)| && 0 <= n < |At(t, y)| && At(t, x)[m] == At(t, y)[n]
      ensures x == y && m == n
    {
      OldOrNew(s, t, q, x, m);
      OldOrNew(s, t, q, y, n);
      hide Made, Accounted;
    }
  }

  lemma OldOrNew(s: State, t: State, q: Place, x: Place, m: nat)
    requires Made(s, t, q) && Accounted(s) && m < |At(t, x)|
    ensures if m < |At(s, x)| then At(t, x)[m] == At(s, x)[m] < s.next
            else x == q && m == |At(s, q)| && At(t, x)[m] == s.next
  {
  }

  lemma MakeKeepsAccounted(s: State, t: State, q: Place)
    requires Made(s, t, q) && Accounted(s)
    ensures Accounted(t)
  {
    hide At;
    forall x, m | 0 <= m < |At(t, x)|
      ensures At(t, x)[m] < t.next
    {
      if m < |At(s, x)| {
        assert At(s, x)[m] < s.next;
      }
    }
    forall b: nat | b < t.next
      ensures Somewhere(t, b)
    {
      if b == s.next {
        assert At(t, q)[|At(s, q)|] == b;
      } else {
        assert Somewhere(s, b);
        var x :| b in At(s, x);
        var m :| 0 <= m < |At(s, x)| && At(s, x)[m] == b;
        assert At(t, x)[m] == b;
      }
    }
  }

  lemma SameKeeps(s: State, t: State)
    requires Same(s, t) && Exclusive(s) && Accounted(s)
    ensures Exclusive(t) && Accounted(t)
  {
    hide At;
    forall b: nat | b < t.next
      ensures Somewhere(t, b)
    {
      assert Somewhere(s, b);
      var x :| b in At(s, x);
      assert b in At(t, x);
    }
  }

  lemma StepKeepsBuffers(s: State, a: Action)
    requires Exclusive(s) && Accounted(s)
    ensures Exclusive(Step(s, a)) && Accounted(Step(s, a))
  {
    if Enabled(s, a) {
      StepEffects(s, a);
      var t, e := Step(s, a), EffectOf(s, a);
      hide Enabled, Step, EffectOf, Exclusive, Accounted, Moved, Made, Same, At;
      match e
      case Nothing => SameKeeps(s, t);
      case Move(p, i, q) =>
        MoveKeepsExclusive(s, t, p, i, q);
        MoveKeepsAccounted(s, t, p, i, q);
      case Make(q) =>
        MakeKeepsExclusive(s, t, q);
        MakeKeepsAccounted(s, t, q);
    }
  }

  // ----- The lock, the worker list and the closed channels -----

  lemma {:induction false} CutRemoves(ws: seq<nat>, sid: nat)
    requires Distinct(ws)
    ensures Distinct(CutFrom(ws, sid))
    ensures forall x :: x in CutFrom(ws, sid) <==> x in ws && x != sid
  {
    if ws != [] {
      var vs := CutFrom(ws[1..], sid);
      CutRemoves(ws[1..], sid);
      assert forall x :: x in ws <==> x == ws[0] || x in ws[1..];
      if ws[0] != sid {
        assert CutFrom(ws, sid) == [ws[0]] + vs;
        assert forall j :: 0 <= j < |vs| ==> vs[j] in vs;
      }
    }
  }

  /** A slot's record changes, but not what the order depends on. */
  lemma RecordKeepsOrder(s: State, t: State, sid: nat, x: Session)
    requires Orderly(s) && sid in s.sessions && WellFormed(x)
    requires t == s.(sessions := s.sessions[sid := x], pool := t.pool, returnCh := t.returnCh, next := t.next)
    requires OwnsLock(x) <==> OwnsLock(s.sessions[sid])
    requires Listed(s, sid) ==> x.phase == Active || x.phase == Leaving
    ensures Orderly(t)
  {
    hide WellFormed, Distinct;
    forall y ensures t.mu == BySlot(y) <==> y in t.sessions && OwnsLock(t.sessions[y]) {
      assert s.mu == BySlot(y) <==> y in s.sessions && OwnsLock(s.sessions[y]);
    }
    forall y | y in t.workers ensures Listed(t, y) {
      assert Listed(s, y);
    }
  }

  lemma TryKeepsOrder(s: State)
    requires Orderly(s) && CanDisp(s, DispTry)
    ensures Orderly(DispStep(s, DispTry))
  {
    var sid := s.disp.sid;
    var x := s.sessions[sid];
    assert Listed(s, sid) && WellFormed(x);
    var t := DispStep(s, DispTry);
    hide Distinct;
    forall y ensures t.mu == BySlot(y) <==> y in t.sessions && OwnsLock(t.sessions[y]) {
      assert s.mu == BySlot(y) <==> y in s.sessions && OwnsLock(s.sessions[y]);
    }
    forall y | y in t.workers ensures Listed(t, y) {
      assert Listed(s, y);
    }
  }

  lemma DispKeepsOrder(s: State, d: DispAction)
    requires Orderly(s) && CanDisp(s, d)
    ensures Orderly(DispStep(s, d))
  {
    if d.DispTry? {
      TryKeepsOrder(s);
    } else {
      var t := DispStep(s, d);
      hide Distinct, WellFormed;
      assert t.sessions == s.sessions && t.workers == s.workers;
      assert forall y :: y in s.workers ==> Listed(s, y);
      assert forall y :: Listed(t, y) == Listed(s, y);
    }
  }

  lemma OpenKeepsOrder(s: State, sid: nat)
    requires Orderly(s) && Enabled(s, Open(sid))
    ensures Orderly(Step(s, Open(sid)))
  {
  }

  lemma JoinKeepsOrder(s: State, sid: nat)
    requires Orderly(s) && Enabled(s, Owner(sid, Join))
    ensures Orderly(Step(s, Owner(sid, Join)))
  {
    var t := Step(s, Owner(sid, Join));
    assert s.mu == BySlot(sid);
    assert sid !in s.workers by {
      assert !Listed(s, sid);
    }
    assert WellFormed(s.sessions[sid]);
    forall y ensures t.mu == BySlot(y) <==> y in t.sessions && OwnsLock(t.sessions[y]) {
      assert s.mu == BySlot(y) <==> y in s.sessions && OwnsLock(s.sessions[y]);
    }
    forall y | y in t.workers ensures Listed(t, y) {
      assert y == sid || Listed(s, y);
    }
  }

  lemma LeaveKeepsOrder(s: State, sid: nat)
    requires Orderly(s) && Enabled(s, Owner(sid, Leave))
    ensures Orderly(Step(s, Owner(sid, Leave)))
  {
    var t := Step(s, Owner(sid, Leave));
    assert WellFormed(s.sessions[sid]);
    hide Distinct;
    forall y ensures t.mu == BySlot(y) <==> y in t.sessions && OwnsLock(t.sessions[y]) {
      assert s.mu == BySlot(y) <==> y in s.sessions && OwnsLock(s.sessions[y]);
    }
    forall y | y in t.workers ensures Listed(t, y) {
      assert Listed(s, y);
    }
  }

  lemma CutKeepsOrder(s: State, sid: nat)
    requires Orderly(s) && Enabled(s, Owner(sid, CutOut))
    ensures Orderly(Step(s, Owner(sid, CutOut)))
  {
    var t := Step(s, Owner(sid, CutOut));
    CutRemoves(s.workers, sid);
    assert s.mu == BySlot(sid) && !UnderLock(s.disp);
    assert WellFormed(s.sessions[sid]);
    hide Distinct, CutFrom;
    forall y ensures t.mu == BySlot(y) <==> y in t.sessions && OwnsLock(t.sessions[y]) {
      assert s.mu == BySlot(y) <==> y in s.sessions && OwnsLock(s.sessions[y]);
    }
    forall y | y in t.workers ensures Listed(t, y) {
      assert Listed(s, y);
    }
  }

  lemma OwnerKeepsOrder(s: State, sid: nat, o: OwnerAction)
    requires Orderly(s) && Enabled(s, Owner(sid, o))
    ensures Orderly(Step(s, Owner(sid, o)))
  {
    match o
    case Join => JoinKeepsOrder(s, sid);
    case Leave => LeaveKeepsOrder(s, sid);
    case CutOut => CutKeepsOrder(s, sid);
    case _ =>
      var t := Step(s, Owner(sid, o));
      assert WellFormed(s.sessions[sid]);
      RecordKeepsOrder(s, t, sid, t.sessions[sid]);
  }

  lemma WriterKeepsOrder(s: State, sid: nat, w: WriterAction)
    requires Orderly(s) && Enabled(s, Writer(sid, w))
    ensures Orderly(WriterStep(s, sid, s.sessions[sid], w))
  {
    var t := WriterStep(s, sid, s.sessions[sid], w);
    assert WellFormed(s.sessions[sid]);
    hide Orderly;
    RecordKeepsOrder(s, t, sid, t.sessions[sid]);
  }

  lemma ReaderKeepsOrder(s: State, sid: nat, r: ReaderAction)
    requires Orderly(s) && Enabled(s, Reader(sid, r))
    ensures Orderly(ReaderStep(s, sid, s.sessions[sid], r))
  {
    var t := ReaderStep(s, sid, s.sessions[sid], r);
    assert WellFormed(s.sessions[sid]);
    hide Orderly;
    RecordKeepsOrder(s, t, sid, t.sessions[sid]);
  }

  lemma KeeperKeepsOrder(s: State, sid: nat, k: KeeperAction)
    requires Orderly(s) && Enabled(s, Keeper(sid, k))
    ensures Orderly(KeeperStep(s, sid, s.sessions[sid], k))
  {
    var t := KeeperStep(s, sid, s.sessions[sid], k);
    assert WellFormed(s.sessions[sid]);
    hide Orderly;
    RecordKeepsOrder(s, t, sid, t.sessions[sid]);
  }

  lemma StepKeepsOrder(s: State, a: Action)
    requires Orderly(s)
    ensures Orderly(Step(s, a))
  {
    if Enabled(s, a) {
      match a
      case Disp(d) => DispKeepsOrder(s, d);
      case Loop(l) =>
        var t := Step(s, a);
        assert forall y :: y in s.workers ==> Listed(s, y);
        assert forall y :: Listed(t, y) == Listed(s, y);
      case Open(sid) => OpenKeepsOrder(s, sid);
      case Owner(sid, o) => OwnerKeepsOrder(s, sid, o);
      case Writer(sid, w) => WriterKeepsOrder(s, sid, w);
      case Reader(sid, r) => ReaderKeepsOrder(s, sid, r);
      case Keeper(sid, k) => KeeperKeepsOrder(s, sid, k);
    }
  }

  lemma {:induction false} RunKeepsInvariant(actions: seq<Action>)
    ensures Invariant(Run(actions))
  {
    if actions != [] {
      var before, a := Run(actions[..|actions| - 1]), actions[|actions| - 1];
      RunKeepsInvariant(actions[..|actions| - 1]);
      StepKeepsBuffers(before, a);
      StepKeepsOrder(before, a);
      hide Step, Exclusive, Accounted, Orderly;
    }
  }

  /** In every interleaving, no send hits a closed SendCh and no SendCh is closed
      twice: either would panic. */
  lemma NoPanic(actions: seq<Action>)
    ensures !Run(actions).panicked
  {
    RunKeepsInvariant(actions);
  }

  /** The slot that readLoop has picked stays registered and open until the send:
      the lock keeps Unregister out. */
  lemma PickedStaysOpen(actions: seq<Action>)
    requires Run(actions).disp.Picked?
    ensures var s := Run(actions);
            s.mu == ByLoop && s.disp.sid in s.workers && s.disp.sid in s.sessions && !s.sessions[s.disp.sid].closed
  {
    RunKeepsInvariant(actions);
    var s := Run(actions);
    assert Listed(s, s.disp.sid) && WellFormed(s.sessions[s.disp.sid]);
  }

  /** The goroutine that an action lets put its local variable, and its value. */
  function Putting(s: State, a: Action): Option<(Place, nat)>
    requires Enabled(s, a)
  {
    match a
    case Disp(DispDrop) => Some((DispHand, s.dispPkt))
    case Disp(DispSpill) => Some((DispHand, s.dispPkt))
    case Loop(LoopPut) => Some((LoopHand, s.loopPkt))
    case Writer(sid, WriterPut) => Some((SlotPlace(sid, WriterHand), s.sessions[sid].writerPkt))
    case Reader(sid, ReaderPut) => Some((SlotPlace(sid, ReaderHand), s.sessions[sid].readerPkt))
    case Keeper(sid, KeeperPut) => Some((SlotPlace(sid, KeeperHand), s.sessions[sid].keeperPkt))
    case Owner(sid, DrainPut) => Some((SlotPlace(sid, DrainHand), s.sessions[sid].drainPkt))
    case _ => None
  }

  lemma PutterHasIt(s: State, a: Action)
    requires Enabled(s, a) && Putting(s, a).Some?
    ensures At(s, Putting(s, a).value.0) == [Putting(s, a).value.1] && Putting(s, a).value.0 != Pool
  {
  }

  /** In every interleaving, what putPktBuf is called with is not in the pool, nor
      in a channel or in the hands of any other goroutine. */
  lemma NoDoublePut(actions: seq<Action>, a: Action)
    requires Enabled(Run(actions), a) && Putting(Run(actions), a).Some?
    ensures var s := Run(actions);
            var (hand, pkt) := Putting(s, a).value;
            pkt !in s.pool && forall p :: pkt in At(s, p) ==> p == hand
  {
    RunKeepsInvariant(actions);
    var s := Run(actions);
    PutterHasIt(s, a);
    var (hand, pkt) := Putting(s, a).value;
    hide Enabled, Putting, Accounted, Orderly, Run, At;
    assert At(s, hand)[0] == pkt;
    assert s.pool == At(s, Pool) by { PoolIsAt(s); }
  }

  lemma PoolIsAt(s: State)
    ensures At(s, Pool) == s.pool
  {
  }

  /** In every interleaving each buffer ever made is in use in exactly one place. */
  lemma NothingLostOrShared(actions: seq<Action>, b: nat)
    requires b < Run(actions).next
    ensures exists p :: b in At(Run(actions), p)
    ensures forall p, q :: b in At(Run(actions), p) && b in At(Run(actions), q) ==> p == q
  {
    RunKeepsInvariant(actions);
    assert Somewhere(Run(actions), b);
  }

  predicate IsFinished(s: State, sid: nat) { sid in s.sessions && s.sessions[sid].phase == Finished }

  lemma DispLeavesFinished(s: State, d: DispAction, sid: nat)
    requires Orderly(s) && IsFinished(s, sid) && CanDisp(s, d)
    ensures sid in DispStep(s, d).sessions && DispStep(s, d).sessions[sid] == s.sessions[sid]
  {
    assert !Listed(s, sid);
    hide WellFormed, Distinct, Listed;
  }

  /** The goroutines of a finished slot have ended. */
  lemma FinishedIsIdle(s: State, x: Session)
    requires WellFormed(x) && x.phase == Finished
    ensures forall w :: !CanWrite(x, w)
    ensures forall r :: !CanRead(s, x, r)
    ensures forall k :: !CanKeep(s, x, k)
    ensures forall o :: !CanOwn(s, x, o)
  {
  }

  /** Nothing happens to a finished slot any more. */
  lemma FinishedIsInert(s: State, a: Action, sid: nat)
    requires Orderly(s) && IsFinished(s, sid)
    ensures sid in Step(s, a).sessions && Step(s, a).sessions[sid] == s.sessions[sid]
  {
    assert WellFormed(s.sessions[sid]);
    FinishedIsIdle(s, s.sessions[sid]);
    if a.Disp? && CanDisp(s, a.d) {
      DispLeavesFinished(s, a.d, sid);
    }
    hide Orderly, CanWrite, CanRead, CanKeep, CanOwn, CanDisp;
    hide WriterStep, ReaderStep, KeeperStep, OwnerStep, DispStep;
  }

  lemma {:induction false} FinishedStays(before: seq<Action>, after: seq<Action>, sid: nat)
    requires IsFinished(Run(before), sid)
    ensures sid in Run(before + after).sessions
    ensures Run(before + after).sessions[sid] == Run(before).sessions[sid]
  {
    if after == [] {
      assert before + after == before;
    } else {
      var n := |after| - 1;
      var all := before + after;
      assert all[..|all| - 1] == before + after[..n] && all[|all| - 1] == after[n];
      FinishedStays(before, after[..n], sid);
      RunKeepsInvariant(before + after[..n]);
      assert Run(all) == Step(Run(before + after[..n]), after[n]);
      hide Step, Run;
      FinishedIsInert(Run(before + after[..n]), after[n], sid);
    }
  }

  lemma OnePlace(s: State, b: nat, p: Place, q: Place)
    requires Exclusive(s) && b in At(s, p) && p != q
    ensures b !in At(s, q)
  {
  }

  /** Which buffers never come back: once a slot is finished, the buffers still
      with it are exactly those sent to its PrioCh after the writer's last look,
      and no continuation ever returns one of them to the pool. */
  lemma StrandedExactly(before: seq<Action>, after: seq<Action>, sid: nat)
    requires IsFinished(Run(before), sid)
    ensures var s, t := Run(before), Run(before + after);
            && (forall part :: At(t, SlotPlace(sid, part)) == if part == PrioCh then s.sessions[sid].late else [])
            && (forall b :: b in s.sessions[sid].late ==> b !in t.pool)
  {
    RunKeepsInvariant(before);
    FinishedStays(before, after, sid);
    RunKeepsInvariant(before + after);
    var s, t := Run(before), Run(before + after);
    var x := s.sessions[sid];
    assert WellFormed(x);
    hide Run, Accounted, Orderly;
    forall b | b in x.late ensures b !in t.pool {
      assert b in At(t, SlotPlace(sid, PrioCh));
      OnePlace(t, b, SlotPlace(sid, PrioCh), Pool);
    }
  }

  lemma RunAppend(actions: seq<Action>, a: Action)
    ensures Run(actions + [a]) == Step(Run(actions), a)
  {
  }

  /** A state with one slot and nothing else going on. */
  function Alone(x: Session, next: nat, mu: Lock, workers: seq<nat>): State {
    State([], [], next, mu, workers, Reading, 0, Idle, 0, map[0 := x], false)
  }

  lemma AloneWith(x: Session, y: Session, next: nat, mu: Lock, workers: seq<nat>)
    ensures With(Alone(x, next, mu, workers), 0, y) == Alone(y, next, mu, workers)
  {
  }

  /** A keepalive sent between the writer's last look at PrioCh and its end. */
  const LateSession: Session := NewSession.(phase := Active, writer := DrainSend, prio := [0], late := [0])

  lemma LateKeepalive() returns (actions: seq<Action>)
    ensures Run(actions) == Alone(LateSession, 1, Free, [0])
  {
    var x1 := NewSession.(phase := Active);
    var x2 := x1.(keeper := Holding);
    var x3 := x2.(writer := DrainPrio);
    var x4 := x3.(writer := DrainSend);
    AloneWith(NewSession, x1, 0, BySlot(0), []);
    AloneWith(x1, x2, 1, Free, [0]);
    AloneWith(x2, x3, 1, Free, [0]);
    AloneWith(x3, x4, 1, Free, [0]);
    AloneWith(x4, LateSession, 1, Free, [0]);
    RunAppend([], Open(0));
    actions := [] + [Open(0)];
    assert Run(actions) == Alone(NewSession, 0, BySlot(0), []);
    RunAppend(actions, Owner(0, Join));
    actions := actions + [Owner(0, Join)];
    assert Run(actions) == Alone(x1, 0, Free, [0]);
    RunAppend(actions, Keeper(0, KeeperGet(None)));
    actions := actions + [Keeper(0, KeeperGet(None))];
    assert Run(actions) == Alone(x2, 1, Free, [0]);
    RunAppend(actions, Writer(0, WriterStop));
    actions := actions + [Writer(0, WriterStop)];
    assert Run(actions) == Alone(x3, 1, Free, [0]);
    RunAppend(actions, Writer(0, PrioEmpty));
    actions := actions + [Writer(0, PrioEmpty)];
    assert Run(actions) == Alone(x4, 1, Free, [0]);
    RunAppend(actions, Keeper(0, KeeperSend));
    actions := actions + [Keeper(0, KeeperSend)];
    hide Run;
  }

  const DoneSession: Session := LateSession.(writer := Ended, keeper := Done, reader := Done)

  lemma GoroutinesEnd(before: seq<Action>) returns (actions: seq<Action>)
    requires Run(before) == Alone(LateSession, 1, Free, [0])
    ensures Run(actions) == Alone(DoneSession, 1, Free, [0])
  {
    var x1 := LateSession.(writer := Ended);
    var x2 := x1.(keeper := Done);
    AloneWith(LateSession, x1, 1, Free, [0]);
    AloneWith(x1, x2, 1, Free, [0]);
    AloneWith(x2, DoneSession, 1, Free, [0]);
    hide Run;
    RunAppend(before, Writer(0, SendEmpty));
    actions := before + [Writer(0, SendEmpty)];
    RunAppend(actions, Keeper(0, KeeperEnd));
    actions := actions + [Keeper(0, KeeperEnd)];
    RunAppend(actions, Reader(0, ReaderEnd));
    actions := actions + [Reader(0, ReaderEnd)];
  }

  lemma OwnerUnregisters(before: seq<Action>) returns (actions: seq<Action>)
    requires Run(before) == Alone(DoneSession, 1, Free, [0])
    ensures IsFinished(Run(actions), 0) && Run(actions).sessions[0].late == [0]
  {
    var x1 := DoneSession.(phase := Leaving);
    var x2 := x1.(phase := Removed);
    var x3 := x2.(phase := Draining, closed := true);
    AloneWith(DoneSession, x1, 1, Free, [0]);
    AloneWith(x1, x2, 1, BySlot(0), [0]);
    AloneWith(x2, x3, 1, Free, []);
    hide Run;
    RunAppend(before, Owner(0, Leave));
    actions := before + [Owner(0, Leave)];
    RunAppend(actions, Owner(0, CutOut));
    actions := actions + [Owner(0, CutOut)];
    assert Run(actions) == Alone(x2, 1, Free, []);
    RunAppend(actions, Owner(0, Close));
    actions := actions + [Owner(0, Close)];
    assert Run(actions) == Alone(x3, 1, Free, []);
    RunAppend(actions, Owner(0, Finish));
    actions := actions + [Owner(0, Finish)];
  }

  /** It does happen. */
  lemma SomeAreStranded()
    ensures exists actions :: IsFinished(Run(actions), 0) && Run(actions).sessions[0].late == [0]
  {
    hide *;
    var before := LateKeepalive();
    var done := GoroutinesEnd(before);
    var actions := OwnerUnregisters(done);
  }

  // ----- What can happen -----

  function After(s: State, actions: seq<Action>): State
    decreases |actions|
  {
    if actions == [] then s else After(Step(s, actions[0]), actions[1..])
  }

  lemma AfterTwo(s: State, a: Action, b: Action)
    ensures After(s, [a, b]) == Step(Step(s, a), b)
  {
    assert [a, b][1..] == [b] && [b][1..] == [];
    hide Step;
    assert After(Step(s, a), [b]) == After(Step(Step(s, a), b), []);
  }

  lemma AfterFive(s: State, a: Action, b: Action, c: Action, d: Action, e: Action)
    ensures After(s, [a, b, c, d, e]) == Step(Step(Step(Step(Step(s, a), b), c), d), e)
  {
    hide Step;
    assert [a, b, c, d, e][1..] == [b, c, d, e] && [b, c, d, e][1..] == [c, d, e] && [c, d, e][1..] == [d, e];
    AfterTwo(Step(Step(Step(s, a), b), c), d, e);
    assert After(Step(Step(s, a), b), [c, d, e]) == After(Step(Step(Step(s, a), b), c), [d, e]);
  }

  /** readLoop's way with one packet for slot `sid`. */
  function Sending(sid: nat, small: bool): seq<Action> {
    [Disp(DispGet(None)), Disp(DispLock), Disp(DispPick(sid, small)), Disp(DispTry), Disp(DispUnlock)]
  }

  /** A packet goes into the slot's SendCh as long as that holds fewer than 128, a
      small one into its PrioCh as long as that holds fewer than 32. */
  lemma PacketGoesIn(s: State, sid: nat, small: bool)
    requires s.disp == Reading && s.mu == Free && sid in s.workers && sid in s.sessions && !s.sessions[sid].closed
    requires if small then |s.sessions[sid].prio| < 32 else |s.sessions[sid].send| < 128
    ensures var x, t := s.sessions[sid], After(s, Sending(sid, small));
            && t.disp == Reading && t.mu == Free && t.next == s.next + 1 && t.pool == s.pool && t.panicked == s.panicked
            && sid in t.sessions
            && t.sessions[sid].send == (if small then x.send else x.send + [s.next])
            && t.sessions[sid].prio == (if small then x.prio + [s.next] else x.prio)
            && t.sessions[sid].writer == x.writer
  {
    var acts := Sending(sid, small);
    AfterFive(s, acts[0], acts[1], acts[2], acts[3], acts[4]);
  }

  /** A full channel leaves the packet with readLoop, which goes on to the next slot
      or drops it. */
  lemma PacketStaysOut(s: State)
    requires s.disp.Picked? && s.disp.sid in s.sessions && (s.disp.small || !s.sessions[s.disp.sid].closed)
    requires var x := s.sessions[s.disp.sid]; if s.disp.small then |x.prio| >= 32 else |x.send| >= 128
    ensures Step(s, Disp(DispTry)) == s.(disp := Locked)
  {
  }

  /** The writer takes the first packet of either queue, puts its buffer back and is
      where it was: waiting, or emptying the queue before it ends. */
  lemma WriterGoesOn(s: State, sid: nat, small: bool)
    requires Started(s, sid)
    requires var x := s.sessions[sid];
             && (if small then x.prio != [] else x.send != [])
             && (x.writer == Waiting || x.writer == if small then DrainPrio else DrainSend)
    ensures var x, t := s.sessions[sid], After(s, [Writer(sid, if small then TakePrio else TakeSend), Writer(sid, WriterPut)]);
            && sid in t.sessions && t.sessions[sid].writer == x.writer
            && t.sessions[sid].prio == (if small then x.prio[1..] else x.prio)
            && t.sessions[sid].send == (if small then x.send else x.send[1..])
            && t.pool == s.pool + [if small then x.prio[0] else x.send[0]]
  {
    AfterTwo(s, Writer(sid, if small then TakePrio else TakeSend), Writer(sid, WriterPut));
  }

  /** A reader's packet goes into the return channel as long as that holds fewer
      than 512; from there writeLoop takes it, and puts its buffer back. */
  lemma ReturnGoesIn(s: State, sid: nat)
    requires Started(s, sid) && s.sessions[sid].reader == Idle && |s.returnCh| < 512
    ensures var t := After(s, [Reader(sid, ReaderGet(None)), Reader(sid, ReaderReturn)]);
            t.returnCh == s.returnCh + [s.next] && sid in t.sessions && t.sessions[sid].reader == Idle && t.pool == s.pool
  {
    AfterTwo(s, Reader(sid, ReaderGet(None)), Reader(sid, ReaderReturn));
  }

  lemma ReturnGoesOut(s: State)
    requires s.loop == Idle && s.returnCh != []
    ensures var t := After(s, [Loop(LoopTake), Loop(LoopPut)]);
            t.returnCh == s.returnCh[1..] && t.pool == s.pool + [s.returnCh[0]] && t.loop == Idle
  {
    AfterTwo(s, Loop(LoopTake), Loop(LoopPut));
  }

  /** A keepalive goes into PrioCh as long as that holds fewer than 32. */
  lemma KeepaliveGoesIn(s: State, sid: nat)
    requires Started(s, sid) && s.sessions[sid].keeper == Idle && |s.sessions[sid].prio| < 32
    ensures var t := After(s, [Keeper(sid, KeeperGet(None)), Keeper(sid, KeeperSend)]);
            sid in t.sessions && t.sessions[sid].prio == s.sessions[sid].prio + [s.next] && t.sessions[sid].keeper == Idle
  {
    AfterTwo(s, Keeper(sid, KeeperGet(None)), Keeper(sid, KeeperSend));
  }

  /** What NoPanic excludes would be noticed: a send to a closed SendCh panics, and
      so does a second close. */
  lemma MisusePanics(s: State, sid: nat)
    requires sid in s.sessions && s.sessions[sid].closed
    ensures s.disp == Picked(sid, false) ==> Step(s, Disp(DispTry)).panicked
    ensures s.sessions[sid].phase == Removed ==> Step(s, Owner(sid, Close)).panicked
  {
  }

  /** The channels' capacities, in every interleaving. */
  ghost predicate Bounded(s: State) {
    |s.returnCh| <= 512 && forall sid :: sid in s.sessions ==> |s.sessions[sid].send| <= 128 && |s.sessions[sid].prio| <= 32
  }

  lemma {:induction false} ChannelsAreBounded(actions: seq<Action>)
    ensures Bounded(Run(actions))
  {
    if actions != [] {
      var n := |actions| - 1;
      ChannelsAreBounded(actions[..n]);
      StepKeepsBounds(Run(actions[..n]), actions[n]);
      hide Step;
    }
  }

  predicate Fits(x: Session) { |x.send| <= 128 && |x.prio| <= 32 }

  lemma WithKeepsBounds(s: State, t: State, sid: nat)
    requires Bounded(s) && |t.returnCh| <= 512
    requires sid in t.sessions && t.sessions == s.sessions[sid := t.sessions[sid]] && Fits(t.sessions[sid])
    ensures Bounded(t)
  {
  }

  lemma DispKeepsBounds(s: State, d: DispAction)
    requires Bounded(s) && CanDisp(s, d)
    ensures Bounded(DispStep(s, d))
  {
    if d == DispTry {
      var t := Tried(s, s.disp.sid, s.disp.small);
      assert t.sessions == s.sessions[s.disp.sid := t.sessions[s.disp.sid]] && Fits(t.sessions[s.disp.sid]);
      WithKeepsBounds(s, t, s.disp.sid);
    }
  }

  lemma WriterKeepsBounds(s: State, sid: nat, w: WriterAction)
    requires Bounded(s) && sid in s.sessions && CanWrite(s.sessions[sid], w)
    ensures Bounded(WriterStep(s, sid, s.sessions[sid], w))
  {
    var t := WriterStep(s, sid, s.sessions[sid], w);
    assert Fits(s.sessions[sid]);
    assert Fits(t.sessions[sid]) && t.returnCh == s.returnCh;
    WithKeepsBounds(s, t, sid);
  }

  lemma ReaderKeepsBounds(s: State, sid: nat, r: ReaderAction)
    requires Bounded(s) && sid in s.sessions && CanRead(s, s.sessions[sid], r)
    ensures Bounded(ReaderStep(s, sid, s.sessions[sid], r))
  {
    var t := ReaderStep(s, sid, s.sessions[sid], r);
    assert Fits(s.sessions[sid]);
    assert Fits(t.sessions[sid]) && |t.returnCh| <= 512;
    WithKeepsBounds(s, t, sid);
  }

  lemma KeeperKeepsBounds(s: State, sid: nat, k: KeeperAction)
    requires Bounded(s) && sid in s.sessions && CanKeep(s, s.sessions[sid], k)
    ensures Bounded(KeeperStep(s, sid, s.sessions[sid], k))
  {
    var t := KeeperStep(s, sid, s.sessions[sid], k);
    assert Fits(s.sessions[sid]);
    assert Fits(t.sessions[sid]) && t.returnCh == s.returnCh;
    WithKeepsBounds(s, t, sid);
  }

  lemma OwnerKeepsBounds(s: State, sid: nat, o: OwnerAction)
    requires Bounded(s) && sid in s.sessions && CanOwn(s, s.sessions[sid], o)
    ensures Bounded(OwnerStep(s, sid, s.sessions[sid], o))
  {
    var t := OwnerStep(s, sid, s.sessions[sid], o);
    assert Fits(s.sessions[sid]);
    assert Fits(t.sessions[sid]) && t.returnCh == s.returnCh;
    WithKeepsBounds(s, t, sid);
  }

  lemma StepKeepsBounds(s: State, a: Action)
    requires Bounded(s)
    ensures Bounded(Step(s, a))
  {
    hide DispStep, WriterStep, ReaderStep, KeeperStep, OwnerStep, CanDisp, CanWrite, CanRead, CanKeep, CanOwn;
    if Enabled(s, a) {
      match a
      case Disp(d) => DispKeepsBounds(s, d);
      case Loop(_) =>
      case Open(sid) =>
      case Writer(sid, w) => WriterKeepsBounds(s, sid, w);
      case Reader(sid, r) => ReaderKeepsBounds(s, sid, r);
      case Keeper(sid, k) => KeeperKeepsBounds(s, sid, k);
      case Owner(sid, o) => OwnerKeepsBounds(s, sid, o);
    }
  }
}
