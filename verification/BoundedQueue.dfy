/**
 The bounded request queue with two condition variables: clients put requests, workers take them,
 and when all clients have finished the main thread puts one stop item for each worker.

 Taking the mutex, testing the loop condition, waiting, changing the buffer, signalling and giving the mutex back are
 separate steps, and the steps of all threads interleave freely.  A waiting thread leaves its wait
 set when a signal picks it, or at any time on its own (a spurious wakeup); it then has to take
 the mutex again and repeat the test.

 `State.put`, `State.taken`, `State.takers` and `State.handled` are history variables.  No step reads them.
 */
module BoundedQueue {
  import opened Circles

  const STOP: int := -1

  // ---------------------------------------------------------------- the circular buffer

  datatype Ring = Ring(buf: seq<int>, head: nat, tail: nat, count: int)

  predicate RingOk(r: Ring) {
    && r.head < |r.buf| && r.tail < |r.buf| && 0 <= r.count <= |r.buf|
    && r.tail == Slot(r.head, r.count, |r.buf|)
  }

  /** The items in the buffer, oldest first. */
  function Items(r: Ring): (s: seq<int>)
    requires RingOk(r)
    ensures |s| == r.count
  {
    seq(r.count, i requires 0 <= i < r.count => r.buf[Slot(r.head, i, |r.buf|)])
  }

  function Push(r: Ring, x: int): Ring
    requires RingOk(r)
  {
    Ring(r.buf[r.tail := x], r.head, (r.tail + 1) % |r.buf|, r.count + 1)
  }

  function Pop(r: Ring): Ring
    requires RingOk(r)
  {
    Ring(r.buf, (r.head + 1) % |r.buf|, r.tail, r.count - 1)
  }

  lemma PushItems(r: Ring, x: int)
    requires RingOk(r) && r.count < |r.buf|
    ensures RingOk(Push(r, x)) && Items(Push(r, x)) == Items(r) + [x]
  {
    NextSlot(r.tail, |r.buf|);
  }

  lemma PopItems(r: Ring)
    requires RingOk(r) && r.count > 0
    ensures RingOk(Pop(r)) && Items(r) == [r.buf[r.head]] + Items(Pop(r))
  {
    NextSlot(r.head, |r.buf|);
  }

  // ---------------------------------------------------------------- threads

  datatype PPc = Fetch | PLock(x: int) | PTest(x: int) | PPut(x: int) | PWait(x: int) | PWoken(x: int) | PSignal
    | PUnlock | PGone

  /** A client, or the main thread when it sends stop items; `left` is what it still has to put. */
  datatype Producer = Producer(pc: PPc, left: nat)

  datatype Worker = WLock | WTest | WTake | WWait | WWoken | WSignal(x: int) | WUnlock(x: int) | Handle(x: int) | WGone

  datatype Mutex = Free | ByP(i: nat) | ByW(j: nat)

  datatype State = State(
    ring: Ring,
    mutex: Mutex,
    ps: seq<Producer>,     // the clients, then the main thread
    ws: seq<Worker>,
    nextId: int,
    put: seq<int>,         // history only
    taken: seq<int>,       // history only
    takers: seq<nat>,      // history only: the worker that took each item
    handled: seq<int>)     // history only

  datatype Step =
    | PStep(i: nat, wake: nat)  // `wake` is the waiter a signal picks, if there is one
    | WStep(j: nat, wake: nat)
    | SpuriousP(i: nat)
    | SpuriousW(j: nat)

  function Start(cap: nat, quotas: seq<nat>, workers: nat): State {
    State(Ring(seq(cap, _ => 0), 0, 0, 0), Free,
          seq(|quotas|, i requires 0 <= i < |quotas| => Producer(Fetch, quotas[i])) + [Producer(Fetch, workers)],
          seq(workers, _ => WLock), 1, [], [], [], [])
  }

  predicate IsMain(s: State, i: nat) {
    i == |s.ps| - 1
  }

  ghost predicate ClientsGone(ps: seq<Producer>) {
    forall i :: 0 <= i < |ps| - 1 ==> ps[i].pc.PGone?
  }

  ghost predicate WorkersGone(ws: seq<Worker>) {
    forall j :: 0 <= j < |ws| ==> ws[j].WGone?
  }

  ghost predicate NoPWaits(ps: seq<Producer>) {
    forall i :: 0 <= i < |ps| ==> !ps[i].pc.PWait?
  }

  ghost predicate NoWWaits(ws: seq<Worker>) {
    forall j :: 0 <= j < |ws| ==> !ws[j].WWait?
  }

  ghost predicate Enabled(s: State, step: Step) {
    RingOk(s.ring) &&
    match step
    case PStep(i, wake) => i < |s.ps| &&
      (match s.ps[i].pc
       case Fetch => IsMain(s, i) ==> ClientsGone(s.ps) && (s.ps[i].left == 0 ==> WorkersGone(s.ws))
       case PLock(_) => s.mutex.Free?
       case PTest(_) => true
       case PPut(_) => true
       case PWait(_) => false
       case PWoken(_) => s.mutex.Free?
       case PSignal => NoWWaits(s.ws) || (wake < |s.ws| && s.ws[wake].WWait?)
       case PUnlock => true
       case PGone => false)
    case WStep(j, wake) => j < |s.ws| &&
      (match s.ws[j]
       case WLock => s.mutex.Free?
       case WTest => true
       case WTake => true
       case WWait => false
       case WWoken => s.mutex.Free?
       case WSignal(_) => NoPWaits(s.ps) || (wake < |s.ps| && s.ps[wake].pc.PWait?)
       case WUnlock(_) => true
       case Handle(_) => true
       case WGone => false)
    case SpuriousP(i) => i < |s.ps| && s.ps[i].pc.PWait?
    case SpuriousW(j) => j < |s.ws| && s.ws[j].WWait?
  }

  function WakeP(ps: seq<Producer>, i: nat): seq<Producer>
  {
    if i < |ps| && ps[i].pc.PWait? then ps[i := Producer(PWoken(ps[i].pc.x), ps[i].left)] else ps
  }

  function WakeW(ws: seq<Worker>, j: nat): seq<Worker> {
    if j < |ws| && ws[j].WWait? then ws[j := WWoken] else ws
  }

  function PNext(s: State, i: nat, wake: nat): State
    requires RingOk(s.ring) && i < |s.ps|
  {
    var p := s.ps[i];
    match p.pc
    case Fetch =>
      if p.left == 0 then s.(ps := s.ps[i := Producer(PGone, 0)])
      else if IsMain(s, i) then s.(ps := s.ps[i := Producer(PLock(STOP), p.left - 1)])
      else s.(ps := s.ps[i := Producer(PLock(s.nextId), p.left - 1)], nextId := s.nextId + 1)
    case PLock(x) => s.(ps := s.ps[i := Producer(PTest(x), p.left)], mutex := ByP(i))
    case PTest(x) =>
      if s.ring.count == |s.ring.buf| then s.(ps := s.ps[i := Producer(PWait(x), p.left)], mutex := Free)
      else s.(ps := s.ps[i := Producer(PPut(x), p.left)])
    case PPut(x) => s.(ps := s.ps[i := Producer(PSignal, p.left)], ring := Push(s.ring, x), put := s.put + [x])
    case PWait(_) => s
    case PWoken(x) => s.(ps := s.ps[i := Producer(PTest(x), p.left)], mutex := ByP(i))
    case PSignal => s.(ps := s.ps[i := Producer(PUnlock, p.left)], ws := WakeW(s.ws, wake))
    case PUnlock => s.(ps := s.ps[i := Producer(Fetch, p.left)], mutex := Free)
    case PGone => s
  }

  function WNext(s: State, j: nat, wake: nat): State
    requires RingOk(s.ring) && j < |s.ws|
  {
    match s.ws[j]
    case WLock => s.(ws := s.ws[j := WTest], mutex := ByW(j))
    case WTest =>
      if s.ring.count == 0 then s.(ws := s.ws[j := WWait], mutex := Free)
      else s.(ws := s.ws[j := WTake])
    case WTake =>
      var x := s.ring.buf[s.ring.head];
      s.(ws := s.ws[j := WSignal(x)], ring := Pop(s.ring), taken := s.taken + [x], takers := s.takers + [j])
    case WWait => s
    case WWoken => s.(ws := s.ws[j := WTest], mutex := ByW(j))
    case WSignal(x) => s.(ws := s.ws[j := WUnlock(x)], ps := WakeP(s.ps, wake))
    case WUnlock(x) => s.(ws := s.ws[j := Handle(x)], mutex := Free)
    case Handle(x) =>
      if x == STOP then s.(ws := s.ws[j := WGone])
      else s.(ws := s.ws[j := WLock], handled := s.handled + [x])
    case WGone => s
  }

  ghost function Apply(s: State, step: Step): State
    requires Enabled(s, step)
  {
    match step
    case PStep(i, wake) => PNext(s, i, wake)
    case WStep(j, wake) => WNext(s, j, wake)
    case SpuriousP(i) => s.(ps := WakeP(s.ps, i))
    case SpuriousW(j) => s.(ws := WakeW(s.ws, j))
  }

  ghost predicate IsRun(cap: nat, quotas: seq<nat>, workers: nat, ss: seq<State>, steps: seq<Step>) {
    && cap > 0
    && |ss| == |steps| + 1
    && ss[0] == Start(cap, quotas, workers)
    && forall i :: 0 <= i < |steps| ==> Enabled(ss[i], steps[i]) && ss[i + 1] == Apply(ss[i], steps[i])
  }

  /** All threads have returned. */
  ghost predicate Finished(s: State) {
    WorkersGone(s.ws) && forall i :: 0 <= i < |s.ps| ==> s.ps[i].pc.PGone?
  }

  // ---------------------------------------------------------------- counting threads

  function Num<T(!new)>(f: T -> bool, xs: seq<T>): nat {
    if xs == [] then 0 else Num(f, xs[..|xs| - 1]) + if f(xs[|xs| - 1]) then 1 else 0
  }

  lemma {:induction false} NumUpdate<T(!new)>(f: T -> bool, xs: seq<T>, i: nat, x: T)
    requires i < |xs|
    ensures Num(f, xs[i := x]) == Num(f, xs) - (if f(xs[i]) then 1 else 0) + (if f(x) then 1 else 0)
    decreases |xs|
  {
    var n := |xs| - 1;
    if i < n {
      NumUpdate(f, xs[..n], i, x);
      assert xs[i := x][..n] == xs[..n][i := x];
    } else {
      assert xs[i := x][..n] == xs[..n];
    }
  }

  lemma {:induction false} NumNone<T(!new)>(f: T -> bool, xs: seq<T>)
    ensures Num(f, xs) == 0 <==> forall i :: 0 <= i < |xs| ==> !f(xs[i])
  {
    if xs != [] {
      var n := |xs| - 1;
      NumNone(f, xs[..n]);
      assert forall i :: 0 <= i < n ==> xs[..n][i] == xs[i];
    }
  }

  lemma {:induction false} NumAll<T(!new)>(f: T -> bool, xs: seq<T>)
    ensures Num(f, xs) <= |xs|
    ensures Num(f, xs) == |xs| <==> forall i :: 0 <= i < |xs| ==> f(xs[i])
  {
    if xs != [] {
      var n := |xs| - 1;
      NumAll(f, xs[..n]);
      assert forall i :: 0 <= i < n ==> xs[..n][i] == xs[i];
    }
  }

  // ---------------------------------------------------------------- wakeups are not lost

  predicate PActive(p: Producer) { p.pc.PLock? || p.pc.PTest? || p.pc.PPut? || p.pc.PWoken? }
  predicate PWaits(p: Producer) { p.pc.PWait? }
  predicate PSignals(p: Producer) { p.pc.PSignal? }
  predicate WActive(w: Worker) { w.WLock? || w.WTest? || w.WTake? || w.WWoken? }
  predicate WWaits(w: Worker) { w.WWait? }
  predicate WSignals(w: Worker) { w.WSignal? }

  /**
   While a worker waits, every item in the buffer has a worker on its way to it or a signal about to be sent;
   while a producer waits, every empty slot has a producer on its way or a signal about to be sent.
   */
  ghost predicate Wakeful(s: State) {
    && (Num(WWaits, s.ws) > 0 ==> s.ring.count <= Num(WActive, s.ws) + Num(PSignals, s.ps))
    && (Num(PWaits, s.ps) > 0 ==> |s.ring.buf| - s.ring.count <= Num(PActive, s.ps) + Num(WSignals, s.ws))
  }

  lemma PMoves(ps: seq<Producer>, i: nat, p: Producer)
    requires i < |ps|
    ensures Num(PActive, ps[i := p]) ==
              Num(PActive, ps) - (if PActive(ps[i]) then 1 else 0) + (if PActive(p) then 1 else 0)
    ensures Num(PWaits, ps[i := p]) == Num(PWaits, ps) - (if PWaits(ps[i]) then 1 else 0) + (if PWaits(p) then 1 else 0)
    ensures Num(PSignals, ps[i := p]) ==
              Num(PSignals, ps) - (if PSignals(ps[i]) then 1 else 0) + (if PSignals(p) then 1 else 0)
  {
    NumUpdate(PActive, ps, i, p);
    NumUpdate(PWaits, ps, i, p);
    NumUpdate(PSignals, ps, i, p);
  }

  lemma WMoves(ws: seq<Worker>, j: nat, w: Worker)
    requires j < |ws|
    ensures Num(WActive, ws[j := w]) ==
              Num(WActive, ws) - (if WActive(ws[j]) then 1 else 0) + (if WActive(w) then 1 else 0)
    ensures Num(WWaits, ws[j := w]) == Num(WWaits, ws) - (if WWaits(ws[j]) then 1 else 0) + (if WWaits(w) then 1 else 0)
    ensures Num(WSignals, ws[j := w]) ==
              Num(WSignals, ws) - (if WSignals(ws[j]) then 1 else 0) + (if WSignals(w) then 1 else 0)
  {
    NumUpdate(WActive, ws, j, w);
    NumUpdate(WWaits, ws, j, w);
    NumUpdate(WSignals, ws, j, w);
  }

  lemma KeepWakefulP(s: State, i: nat, wake: nat)
    requires Wakeful(s) && Enabled(s, PStep(i, wake))
    ensures Wakeful(PNext(s, i, wake))
  {
    var s' := PNext(s, i, wake);
    PMoves(s.ps, i, s'.ps[i]);
    if s.ps[i].pc.PSignal? {
      NumNone(WWaits, s.ws);
      if wake < |s.ws| { WMoves(s.ws, wake, WWoken); }
    }
  }

  lemma KeepWakefulW(s: State, j: nat, wake: nat)
    requires Wakeful(s) && Enabled(s, WStep(j, wake))
    ensures Wakeful(WNext(s, j, wake))
  {
    var s' := WNext(s, j, wake);
    WMoves(s.ws, j, s'.ws[j]);
    if s.ws[j].WSignal? {
      NumNone(PWaits, s.ps);
      if wake < |s.ps| && s.ps[wake].pc.PWait? {
        PMoves(s.ps, wake, Producer(PWoken(s.ps[wake].pc.x), s.ps[wake].left));
      }
    }
  }

  lemma KeepWakeful(s: State, step: Step)
    requires Wakeful(s) && Enabled(s, step)
    ensures Wakeful(Apply(s, step))
  {
    match step
    case PStep(i, wake) => KeepWakefulP(s, i, wake);
    case WStep(j, wake) => KeepWakefulW(s, j, wake);
    case SpuriousP(i) => PMoves(s.ps, i, Producer(PWoken(s.ps[i].pc.x), s.ps[i].left));
    case SpuriousW(j) => WMoves(s.ws, j, WWoken);
  }

  // ---------------------------------------------------------------- the mutex and the buffer

  predicate PHolds(p: Producer) { p.pc.PTest? || p.pc.PPut? || p.pc.PSignal? || p.pc.PUnlock? }
  predicate WHolds(w: Worker) { w.WTest? || w.WTake? || w.WSignal? || w.WUnlock? }

  /** The mutex is held exactly by the thread whose program counter says so. */
  ghost predicate MutexOk(s: State) {
    && (forall i :: 0 <= i < |s.ps| ==> (PHolds(s.ps[i]) <==> s.mutex == ByP(i)))
    && (forall j :: 0 <= j < |s.ws| ==> (WHolds(s.ws[j]) <==> s.mutex == ByW(j)))
    && (s.mutex.ByP? ==> s.mutex.i < |s.ps|) && (s.mutex.ByW? ==> s.mutex.j < |s.ws|)
  }

  /** What the loop tests found still holds when the buffer is changed. */
  ghost predicate RoomOk(s: State) {
    && (forall i :: 0 <= i < |s.ps| && s.ps[i].pc.PPut? ==> s.ring.count < |s.ring.buf|)
    && (forall j :: 0 <= j < |s.ws| && s.ws[j].WTake? ==> s.ring.count > 0)
  }

  /** First in, first out. */
  ghost predicate FlowOk(s: State) {
    RingOk(s.ring) && s.put == s.taken + Items(s.ring)
  }

  lemma KeepMutex(s: State, step: Step)
    requires MutexOk(s) && Enabled(s, step)
    ensures MutexOk(Apply(s, step))
  { }

  lemma KeepRoom(s: State, step: Step)
    requires MutexOk(s) && RoomOk(s) && Enabled(s, step)
    ensures RoomOk(Apply(s, step))
  { }

  lemma KeepFlow(s: State, step: Step)
    requires RoomOk(s) && FlowOk(s) && Enabled(s, step)
    ensures FlowOk(Apply(s, step))
  {
    if step.PStep? && s.ps[step.i].pc.PPut? {
      PushItems(s.ring, s.ps[step.i].pc.x);
    }
    if step.WStep? && s.ws[step.j].WTake? {
      PopItems(s.ring);
    }
  }

  // ---------------------------------------------------------------- where each item is

  function Is(x: int): int -> bool { y => y == x }

  predicate Holding(p: Producer) {
    p.pc.PLock? || p.pc.PTest? || p.pc.PPut? || p.pc.PWait? || p.pc.PWoken?
  }

  predicate InHand(w: Worker) {
    w.WSignal? || w.WUnlock? || w.Handle?
  }

  /** Producers that are about to put `x`. */
  function Holds(x: int): Producer -> bool { p => Holding(p) && p.pc.x == x }

  /** Workers that have taken `x` and are not done with it; a stop item stays with its worker. */
  function Has(x: int): Worker -> bool { w => (InHand(w) && w.x == x) || (x == STOP && w.WGone?) }

  lemma NumAppend<T(!new)>(f: T -> bool, xs: seq<T>, x: T)
    ensures Num(f, xs + [x]) == Num(f, xs) + if f(x) then 1 else 0
  {
    assert (xs + [x])[..|xs|] == xs;
  }

  /** Every request id drawn is in one place: with the client that drew it, or put once. */
  ghost predicate DrawnOk(s: State) {
    forall x :: x != STOP ==> Placed(s.put, s.ps, s.nextId, x)
  }

  /** Every item taken is with a worker or handled. */
  ghost predicate PassedOk(s: State) {
    forall x :: Accounted(s.taken, s.handled, s.ws, x)
  }

  /** The main thread puts stop items only, one for each worker. */
  ghost predicate MainOk(s: State) {
    && |s.ps| > 0 && MainPart(s.ps[|s.ps| - 1])
    && Num(Is(STOP), s.put) + ToStop(s.ps[|s.ps| - 1]) == |s.ws|
  }

  predicate MainPart(m: Producer) {
    (Holding(m) ==> m.pc.x == STOP) && (m.pc.PGone? ==> m.left == 0)
  }

  function ToStop(m: Producer): nat {
    m.left + if Holding(m) then 1 else 0
  }

  /** It starts when all clients are gone. */
  ghost predicate MainLate(s: State) {
    |s.ps| > 0 && (s.ps[|s.ps| - 1].pc != Fetch || STOP in s.put ==> ClientsGone(s.ps))
  }

  ghost predicate ClientsOk(s: State) {
    && s.nextId >= 1
    && (forall i :: 0 <= i < |s.ps| - 1 && Holding(s.ps[i]) ==> s.ps[i].pc.x != STOP)
    && (forall i :: 0 <= i < |s.ps| - 1 && s.ps[i].pc.PGone? ==> s.ps[i].left == 0)
  }

  /** Stop items come after all requests. */
  ghost predicate StopsLast(put: seq<int>) {
    forall a, b :: 0 <= a < b < |put| && put[a] == STOP ==> put[b] == STOP
  }

  function SumLeft(ps: seq<Producer>): nat {
    if ps == [] then 0 else SumLeft(ps[..|ps| - 1]) + ps[|ps| - 1].left
  }

  ghost predicate QuotaOk(s: State, total: nat) {
    |s.ps| > 0 && s.nextId - 1 + SumLeft(s.ps[..|s.ps| - 1]) == total
  }

  ghost predicate StopOk(s: State) {
    && STOP !in s.handled
    && (|s.ps| > 0 && s.ps[|s.ps| - 1].pc.PGone? ==> WorkersGone(s.ws))
  }

  lemma WakePHolds(ps: seq<Producer>, wake: nat, x: int)
    ensures Num(Holds(x), WakeP(ps, wake)) == Num(Holds(x), ps)
  {
    if wake < |ps| { NumUpdate(Holds(x), ps, wake, WakeP(ps, wake)[wake]); }
  }

  lemma WakeWHas(ws: seq<Worker>, wake: nat, x: int)
    ensures Num(Has(x), WakeW(ws, wake)) == Num(Has(x), ws)
  {
    if wake < |ws| { NumUpdate(Has(x), ws, wake, WakeW(ws, wake)[wake]); }
  }

  /** Request `x` is in one place if it has been drawn, and in none if not. */
  ghost predicate Placed(put: seq<int>, ps: seq<Producer>, nextId: int, x: int) {
    Num(Is(x), put) + Num(Holds(x), ps) == if 1 <= x < nextId then 1 else 0
  }

  lemma PlacedFetch(s: State, i: nat, p: Producer, x: int)
    requires i < |s.ps| && s.ps[i].pc.Fetch? && x != STOP && s.nextId >= 1 && Placed(s.put, s.ps, s.nextId, x)
    ensures p.pc == PLock(s.nextId) ==> Placed(s.put, s.ps[i := p], s.nextId + 1, x)
    ensures p.pc == PLock(STOP) || p.pc == PGone ==> Placed(s.put, s.ps[i := p], s.nextId, x)
  {
    NumUpdate(Holds(x), s.ps, i, p);
  }

  lemma PlacedPut(s: State, i: nat, p: Producer, x: int)
    requires i < |s.ps| && s.ps[i].pc.PPut? && p.pc.PSignal? && Placed(s.put, s.ps, s.nextId, x)
    ensures Placed(s.put + [s.ps[i].pc.x], s.ps[i := p], s.nextId, x)
  {
    NumUpdate(Holds(x), s.ps, i, p);
    NumAppend(Is(x), s.put, s.ps[i].pc.x);
  }

  lemma PlacedMove(s: State, i: nat, p: Producer, x: int)
    requires i < |s.ps| && Placed(s.put, s.ps, s.nextId, x)
    requires Holding(p) == Holding(s.ps[i]) && (Holding(p) ==> p.pc.x == s.ps[i].pc.x)
    ensures Placed(s.put, s.ps[i := p], s.nextId, x)
  {
    NumUpdate(Holds(x), s.ps, i, p);
  }

  lemma DrawnP(s: State, i: nat, wake: nat, x: int)
    requires Placed(s.put, s.ps, s.nextId, x) && s.nextId >= 1 && Enabled(s, PStep(i, wake)) && x != STOP
    ensures var s' := PNext(s, i, wake); Placed(s'.put, s'.ps, s'.nextId, x)
  {
    var p := PNext(s, i, wake).ps[i];
    if s.ps[i].pc.Fetch? { PlacedFetch(s, i, p, x); }
    else if s.ps[i].pc.PPut? { PlacedPut(s, i, p, x); }
    else { PlacedMove(s, i, p, x); }
  }

  lemma KeepDrawn(s: State, step: Step)
    requires DrawnOk(s) && ClientsOk(s) && Enabled(s, step)
    ensures DrawnOk(Apply(s, step))
  {
    var s' := Apply(s, step);
    forall x | x != STOP ensures Placed(s'.put, s'.ps, s'.nextId, x) {
      assert Placed(s.put, s.ps, s.nextId, x);
      match step
      case PStep(i, wake) => DrawnP(s, i, wake, x);
      case WStep(_, wake) => WakePHolds(s.ps, wake, x);
      case SpuriousP(i) => WakePHolds(s.ps, i, x);
      case SpuriousW(_) =>
    }
  }

  /** As often as `x` was taken, it was handled or is in hand. */
  ghost predicate Accounted(taken: seq<int>, handled: seq<int>, ws: seq<Worker>, x: int) {
    Num(Is(x), taken) == Num(Is(x), handled) + Num(Has(x), ws)
  }

  lemma AccountedTake(taken: seq<int>, handled: seq<int>, ws: seq<Worker>, j: nat, y: int, x: int)
    requires Accounted(taken, handled, ws, x) && j < |ws| && ws[j].WTake?
    ensures Accounted(taken + [y], handled, ws[j := WSignal(y)], x)
  {
    NumUpdate(Has(x), ws, j, WSignal(y));
    NumAppend(Is(x), taken, y);
  }

  lemma AccountedHandle(taken: seq<int>, handled: seq<int>, ws: seq<Worker>, j: nat, x: int)
    requires Accounted(taken, handled, ws, x) && j < |ws| && ws[j].Handle?
    ensures ws[j].x == STOP ==> Accounted(taken, handled, ws[j := WGone], x)
    ensures ws[j].x != STOP ==> Accounted(taken, handled + [ws[j].x], ws[j := WLock], x)
  {
    NumUpdate(Has(x), ws, j, WGone);
    NumUpdate(Has(x), ws, j, WLock);
    NumAppend(Is(x), handled, ws[j].x);
  }

  lemma AccountedMove(taken: seq<int>, handled: seq<int>, ws: seq<Worker>, j: nat, w: Worker, x: int)
    requires Accounted(taken, handled, ws, x) && j < |ws| && Has(x)(w) == Has(x)(ws[j])
    ensures Accounted(taken, handled, ws[j := w], x)
  {
    NumUpdate(Has(x), ws, j, w);
  }

  lemma PassedW(s: State, j: nat, wake: nat, x: int)
    requires Accounted(s.taken, s.handled, s.ws, x) && Enabled(s, WStep(j, wake))
    ensures var s' := WNext(s, j, wake); Accounted(s'.taken, s'.handled, s'.ws, x)
  {
    if s.ws[j].WTake? { AccountedTake(s.taken, s.handled, s.ws, j, s.ring.buf[s.ring.head], x); }
    else if s.ws[j].Handle? { AccountedHandle(s.taken, s.handled, s.ws, j, x); }
    else { AccountedMove(s.taken, s.handled, s.ws, j, WNext(s, j, wake).ws[j], x); }
  }

  lemma KeepPassed(s: State, step: Step)
    requires PassedOk(s) && Enabled(s, step)
    ensures PassedOk(Apply(s, step))
  {
    var s' := Apply(s, step);
    forall x ensures Accounted(s'.taken, s'.handled, s'.ws, x) {
      assert Accounted(s.taken, s.handled, s.ws, x);
      match step
      case WStep(j, wake) => PassedW(s, j, wake, x);
      case PStep(_, wake) => WakeWHas(s.ws, wake, x);
      case SpuriousW(j) => WakeWHas(s.ws, j, x);
      case SpuriousP(_) =>
    }
  }

  lemma KeepClients(s: State, step: Step)
    requires ClientsOk(s) && Enabled(s, step)
    ensures ClientsOk(Apply(s, step))
  { }

  lemma KeepStop(s: State, step: Step)
    requires StopOk(s) && Enabled(s, step)
    ensures StopOk(Apply(s, step))
  { }

  lemma KeepMainClient(s: State, i: nat, wake: nat)
    requires MainOk(s) && ClientsOk(s) && Enabled(s, PStep(i, wake)) && !IsMain(s, i)
    ensures MainOk(PNext(s, i, wake))
  {
    assert PNext(s, i, wake).ps[|s.ps| - 1] == s.ps[|s.ps| - 1];
    if s.ps[i].pc.PPut? { NumAppend(Is(STOP), s.put, s.ps[i].pc.x); }
  }

  lemma KeepMainSelf(s: State, i: nat, wake: nat)
    requires MainOk(s) && Enabled(s, PStep(i, wake)) && IsMain(s, i)
    ensures MainOk(PNext(s, i, wake))
  {
    assert MainPart(PNext(s, i, wake).ps[i]);
    if s.ps[i].pc.PPut? { NumAppend(Is(STOP), s.put, s.ps[i].pc.x); }
  }

  lemma KeepMain(s: State, step: Step)
    requires MainOk(s) && ClientsOk(s) && Enabled(s, step)
    ensures MainOk(Apply(s, step))
  {
    if step.PStep? {
      if IsMain(s, step.i) { KeepMainSelf(s, step.i, step.wake); } else { KeepMainClient(s, step.i, step.wake); }
    }
  }

  lemma KeepLate(s: State, step: Step)
    requires MainLate(s) && ClientsOk(s) && Enabled(s, step)
    ensures MainLate(Apply(s, step))
  { }

  /** Once a stop item has been put, only the main thread puts. */
  lemma KeepLast(s: State, step: Step)
    requires StopsLast(s.put) && MainLate(s) && MainOk(s) && Enabled(s, step)
    ensures StopsLast(Apply(s, step).put)
  {
    if step.PStep? && s.ps[step.i].pc.PPut? && s.ps[step.i].pc.x != STOP {
      assert STOP !in s.put;
    }
  }

  lemma {:induction false} LeftUpdate(ps: seq<Producer>, i: nat, p: Producer)
    requires i < |ps|
    ensures SumLeft(ps[i := p]) == SumLeft(ps) - ps[i].left + p.left
    decreases |ps|
  {
    var n := |ps| - 1;
    if i < n {
      LeftUpdate(ps[..n], i, p);
      assert ps[i := p][..n] == ps[..n][i := p];
    } else {
      assert ps[i := p][..n] == ps[..n];
    }
  }

  lemma ClientsLeft(ps: seq<Producer>, i: nat, p: Producer)
    requires i < |ps|
    ensures SumLeft(ps[i := p][..|ps| - 1]) == SumLeft(ps[..|ps| - 1]) - if i < |ps| - 1 then ps[i].left - p.left else 0
  {
    var n := |ps| - 1;
    if i < n {
      LeftUpdate(ps[..n], i, p);
      assert ps[i := p][..n] == ps[..n][i := p];
    } else {
      assert ps[i := p][..n] == ps[..n];
    }
  }

  lemma WakePLeft(ps: seq<Producer>, wake: nat)
    requires |ps| > 0
    ensures SumLeft(WakeP(ps, wake)[..|ps| - 1]) == SumLeft(ps[..|ps| - 1])
  {
    if wake < |ps| { ClientsLeft(ps, wake, WakeP(ps, wake)[wake]); }
  }

  lemma KeepQuotaP(s: State, s': State, i: nat, wake: nat, total: nat)
    requires QuotaOk(s, total) && Enabled(s, PStep(i, wake)) && s' == PNext(s, i, wake)
    ensures QuotaOk(s', total)
  {
    assert s'.ps == s.ps[i := s'.ps[i]];
    ClientsLeft(s.ps, i, s'.ps[i]);
  }

  lemma KeepQuotaW(s: State, s': State, j: nat, wake: nat, total: nat)
    requires QuotaOk(s, total) && Enabled(s, WStep(j, wake)) && s' == WNext(s, j, wake)
    ensures QuotaOk(s', total)
  {
    assert s'.ps == s.ps || s'.ps == WakeP(s.ps, wake);
    WakePLeft(s.ps, wake);
  }

  lemma KeepQuota(s: State, step: Step, total: nat)
    requires QuotaOk(s, total) && Enabled(s, step)
    ensures QuotaOk(Apply(s, step), total)
  {
    match step
    case PStep(i, wake) => KeepQuotaP(s, PNext(s, i, wake), i, wake, total);
    case WStep(j, wake) => KeepQuotaW(s, WNext(s, j, wake), j, wake, total);
    case SpuriousP(i) => WakePLeft(s.ps, i);
    case SpuriousW(_) =>
  }

  // ---------------------------------------------------------------- invariant over runs

  ghost predicate Inv(s: State, total: nat) {
    && Wakeful(s) && MutexOk(s) && RoomOk(s) && FlowOk(s)
    && DrawnOk(s) && PassedOk(s) && ClientsOk(s) && MainOk(s) && MainLate(s) && StopOk(s) && StopsLast(s.put)
       && QuotaOk(s, total)
  }

  lemma StepInv(s: State, s': State, step: Step, total: nat)
    requires Inv(s, total) && Enabled(s, step) && s' == Apply(s, step)
    ensures Inv(s', total)
  {
    KeepWakeful(s, step);
    KeepMutex(s, step);
    KeepRoom(s, step);
    KeepFlow(s, step);
    KeepDrawn(s, step);
    KeepPassed(s, step);
    KeepClients(s, step);
    KeepMain(s, step);
    KeepLate(s, step);
    KeepStop(s, step);
    KeepLast(s, step);
    KeepQuota(s, step, total);
  }

  function Total(quotas: seq<nat>): nat {
    if quotas == [] then 0 else Total(quotas[..|quotas| - 1]) + quotas[|quotas| - 1]
  }

  lemma {:induction false} StartLeft(quotas: seq<nat>)
    ensures SumLeft(seq(|quotas|, i requires 0 <= i < |quotas| => Producer(Fetch, quotas[i]))) == Total(quotas)
  {
    var ps := seq(|quotas|, i requires 0 <= i < |quotas| => Producer(Fetch, quotas[i]));
    if quotas != [] {
      var n := |quotas| - 1;
      StartLeft(quotas[..n]);
      assert ps[..n] == seq(n, i requires 0 <= i < n => Producer(Fetch, quotas[..n][i]));
    }
  }

  lemma StartCounts(s: State, cap: nat, quotas: seq<nat>, workers: nat)
    requires cap > 0 && s == Start(cap, quotas, workers)
    ensures Wakeful(s) && DrawnOk(s) && PassedOk(s)
  {
    NumNone(WWaits, s.ws);
    NumNone(PWaits, s.ps);
    forall x ensures Num(Holds(x), s.ps) == 0 && Num(Has(x), s.ws) == 0 {
      NumNone(Holds(x), s.ps);
      NumNone(Has(x), s.ws);
    }
  }

  lemma StartInv(s: State, cap: nat, quotas: seq<nat>, workers: nat)
    requires cap > 0 && s == Start(cap, quotas, workers)
    ensures Inv(s, Total(quotas))
  {
    assert s.ps[..|s.ps| - 1] == seq(|quotas|, i requires 0 <= i < |quotas| => Producer(Fetch, quotas[i]));
    StartLeft(quotas);
    StartCounts(s, cap, quotas, workers);
  }

  lemma {:induction false} RunInv(cap: nat, quotas: seq<nat>, workers: nat, ss: seq<State>, steps: seq<Step>, n: nat)
    requires IsRun(cap, quotas, workers, ss, steps) && n < |ss|
    ensures Inv(ss[n], Total(quotas))
  {
    if n == 0 {
      StartInv(ss[0], cap, quotas, workers);
    } else {
      RunInv(cap, quotas, workers, ss, steps, n - 1);
      StepInv(ss[n - 1], ss[n], steps[n - 1], Total(quotas));
    }
  }

  lemma StepSizes(s: State, step: Step)
    requires Enabled(s, step)
    ensures |Apply(s, step).ws| == |s.ws| && |Apply(s, step).ring.buf| == |s.ring.buf|
  { }

  lemma {:induction false} RunSizes(cap: nat, quotas: seq<nat>, workers: nat, ss: seq<State>, steps: seq<Step>, n: nat)
    requires IsRun(cap, quotas, workers, ss, steps) && n < |ss|
    ensures |ss[n].ws| == workers && |ss[n].ring.buf| == cap
  {
    if n > 0 {
      RunSizes(cap, quotas, workers, ss, steps, n - 1);
      StepSizes(ss[n - 1], steps[n - 1]);
    }
  }
}
