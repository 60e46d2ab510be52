/** `gc_queue` as a state machine whose steps are the atomic accesses of session threads
    (`lock`, `unlock`) and of the threads that push, poll or run the queue. All those accesses are
    sequentially consistent, so every execution is an interleaving of the steps below. */
module GcProtocol {
  import opened Leb128
  import opened GcRing

  /** Program counter of a session thread. */
  datatype Pc =
    | Idle
    | Loaded(val: nat)       // has read _end
    | Stored(val: nat)       // has published val
    | Locked(since: nat)     // has read _end again, unchanged; `since` elements had been pushed by then
    | Retrying               // has read _end again, changed: about to unlock
    | Notifying              // has taken back a sequence that carried the wait bit

  datatype Session = Session(sequence: nat, pc: Pc)

  datatype Purpose = ForPush(e: Elem) | ForPoll | ForRun

  /** What the holder of the queue mutex is doing. `todo` are the sessions not scanned yet. */
  datatype Mode =
    | Free
    | Scan(purpose: Purpose, lowest: nat, todo: set<nat>)
    | Exchange(purpose: Purpose, lowest: nat, todo: set<nat>, id: nat)   // before the compare-exchange
    | Result(purpose: Purpose, r: nat)                                   // `start_wait` has returned
    | Ready(e: Elem)                                                     // room was made for a push

  /** `pushed` and `out` record all elements ever pushed and ever moved out. */
  datatype State = State(slots: seq<Option<Elem>>, end: nat, size: nat, waiting: bool,
                         sessions: map<nat, Session>, mode: Mode,
                         pushed: seq<Elem>, out: seq<Option<Elem>>)

  function Slots(s: State): nat { |s.slots| }

  function StartOf(s: State): nat
    requires Slots(s) > 0 && s.size <= s.end + Slots(s)
  {
    Start(Slots(s), s.end, s.size)
  }

  function WithSession(s: State, id: nat, x: Session): State { s.(sessions := s.sessions[id := x]) }

  function AfterPush(s: State, e: Elem): State
    requires s.end < Slots(s)
  {
    s.(slots := s.slots[s.end := Some(e)], end := Next(Slots(s), s.end), size := s.size + 1,
       pushed := s.pushed + [e], mode := Free)
  }

  function Lower(s: State, start: nat, lowest: nat, sequence: nat): nat {
    LowerOf(Slots(s), s.end, start, lowest, sequence)
  }

  function Sizes(s: State, popped: nat): nat { if popped <= s.size then s.size - popped else 0 }

  function AfterPop(s: State, r: nat, mode: Mode): State
    requires Slots(s) > 0 && s.size <= s.end + Slots(s) && r < Slots(s)
  {
    var (slots', items) := Popped(s.slots, StartOf(s), r);
    s.(slots := slots', size := Sizes(s, |items|), out := s.out + items, mode := mode)
  }

  datatype Action =
    | Register(id: nat) | Unregister(id: nat)
    | LoadEnd(id: nat) | StoreSequence(id: nat) | Recheck(id: nat) | TakeBack(id: nat) | Notify(id: nat)
    | BeginPush(e: Elem) | BeginPoll | BeginRun
    | Read(id: nat) | CompareExchange(id: nat) | EndScan | Finish | CompletePush

  predicate HasWaitBit(v: nat) { v != NPOS && v >= WAIT_BIT }

  predicate ScanHolds(m: Mode) { m.Scan? || m.Exchange? }   // the session mutex is taken

  predicate WellFormed(s: State) {
    && Slots(s) > 0 && s.size < Slots(s) && s.end < Slots(s)
    && (s.mode.Result? ==> s.mode.r < Slots(s))
  }

  /** The step relation is a partial function of the action. */
  function Step(s: State, a: Action): Option<State>
    requires WellFormed(s)
  {
    match a
    // -- sessions come and go while no scan holds the session mutex
    case Register(id) =>
      if id in s.sessions || ScanHolds(s.mode) then None else Some(WithSession(s, id, Session(NPOS, Idle)))
    case Unregister(id) =>
      if id !in s.sessions || s.sessions[id].pc != Idle || ScanHolds(s.mode) then None
      else Some(s.(sessions := s.sessions - {id}))
    // -- session::lock
    case LoadEnd(id) =>
      if id !in s.sessions || s.sessions[id].pc != Idle then None
      else Some(WithSession(s, id, s.sessions[id].(pc := Loaded(s.end))))
    case StoreSequence(id) =>
      if id !in s.sessions || !s.sessions[id].pc.Loaded? then None
      else var v := s.sessions[id].pc.val; Some(WithSession(s, id, Session(v, Stored(v))))
    case Recheck(id) =>
      if id !in s.sessions || !s.sessions[id].pc.Stored? then None
      else
        var pc := if s.end == s.sessions[id].pc.val then Locked(|s.pushed|) else Retrying;
        Some(WithSession(s, id, s.sessions[id].(pc := pc)))
    // -- session::unlock
    case TakeBack(id) =>
      if id !in s.sessions || !(s.sessions[id].pc.Locked? || s.sessions[id].pc.Retrying?) then None
      else
        Some(WithSession(s, id, Session(NPOS, if HasWaitBit(s.sessions[id].sequence) then Notifying else Idle)))
    case Notify(id) =>
      if id !in s.sessions || !s.sessions[id].pc.Notifying? || !s.mode.Free? then None
      else Some(WithSession(s, id, Session(NPOS, Idle)).(waiting := false))
    // -- push, poll and run take the queue mutex
    case BeginPush(e) =>
      if !s.mode.Free? then None
      else if s.size == Slots(s) - 1 then Some(s.(mode := Scan(ForPush(e), s.end, s.sessions.Keys)))
      else Some(AfterPush(s, e))
    case BeginPoll => if !s.mode.Free? then None else Some(s.(mode := Scan(ForPoll, s.end, s.sessions.Keys)))
    case BeginRun => if !s.mode.Free? then None else Some(s.(mode := Scan(ForRun, s.end, s.sessions.Keys)))
    // -- start_wait
    case Read(id) =>
      if !s.mode.Scan? || id !in s.mode.todo || id !in s.sessions then None
      else
        var m, sequence := s.mode, Masked(s.sessions[id].sequence);
        if sequence == StartOf(s) && !m.purpose.ForPoll? then
          if s.waiting then Some(s.(mode := Result(m.purpose, StartOf(s))))
          else Some(s.(mode := Exchange(m.purpose, m.lowest, m.todo, id)))
        else Some(s.(mode := Scan(m.purpose, Lower(s, StartOf(s), m.lowest, sequence), m.todo - {id})))
    case CompareExchange(id) =>
      if !s.mode.Exchange? || id != s.mode.id || id !in s.sessions then None
      else
        var m, actual := s.mode, s.sessions[id].sequence;
        if actual == StartOf(s) then
          Some(WithSession(s, id, s.sessions[id].(sequence := actual + WAIT_BIT))
               .(waiting := true, mode := Result(m.purpose, StartOf(s))))
        else Some(s.(mode := Scan(m.purpose, Lower(s, StartOf(s), m.lowest, actual), m.todo - {id})))
    case EndScan =>
      if !s.mode.Scan? || s.mode.todo != {} || s.mode.lowest >= Slots(s) then None
      else Some(s.(mode := Result(s.mode.purpose, s.mode.lowest)))
    // -- pop_some, and the rest of push; a push that cannot pop anything goes to sleep and starts over
    case Finish =>
      if !s.mode.Result? then None
      else if s.mode.purpose.ForPush? && s.mode.r == StartOf(s) then Some(s.(mode := Free))
      else Some(AfterPop(s, s.mode.r, if s.mode.purpose.ForPush? then Ready(s.mode.purpose.e) else Free))
    case CompletePush => if !s.mode.Ready? then None else Some(AfterPush(s, s.mode.e))
  }

  function Init(n: nat): State
    requires n > 0
  {
    State(seq(n, _ => None), 0, 0, false, map[], Free, [], [])
  }

  /** A run is a sequence of states related by steps, from an empty queue. */
  ghost predicate IsRun(run: seq<State>, n: nat) {
    && 1 < n <= MAX_SLOTS && |run| > 0 && run[0] == Init(n)
    && forall i :: 0 <= i < |run| - 1 ==> Follows(run[i], run[i + 1])
  }

  ghost predicate Follows(s: State, s': State) { WellFormed(s) && exists a :: Step(s, a) == Some(s') }

  // ----- the invariant

  function Gone(s: State): nat { |s.out| }   // elements moved out so far

  ghost predicate RingInv(s: State) {
    && Slots(s) > 1
    && Gone(s) <= |s.pushed| && s.out == Somes(s.pushed[..Gone(s)])
    && Holds(s.slots, s.end, s.size, s.pushed, Gone(s))
  }

  ghost predicate SessionInv(s: State, x: Session)
    requires Slots(s) > 0
  {
    match x.pc
    case Idle => x.sequence == NPOS
    case Notifying => x.sequence == NPOS
    case Loaded(val) => x.sequence == NPOS && val < Slots(s)
    case Stored(val) => val < Slots(s) && (x.sequence == val || x.sequence == val + WAIT_BIT)
    case Retrying => Masked(x.sequence) < Slots(s) && x.sequence < WAIT_BIT + Slots(s)
    case Locked(since) =>
      && Gone(s) <= since <= |s.pushed|
      && (x.sequence == since % Slots(s) || x.sequence == since % Slots(s) + WAIT_BIT)
  }

  ghost predicate SessionsInv(s: State)
    requires Slots(s) > 0
  {
    forall id :: id in s.sessions ==> SessionInv(s, s.sessions[id])
  }

  /** A session that will clear `waiting` and wake the sleepers. */
  predicate Waker(x: Session) { HasWaitBit(x.sequence) || x.pc.Notifying? }

  /** A sleeping thread always has exactly one session that will wake it. */
  ghost predicate WaitInv(s: State) {
    && (s.waiting <==> exists id :: id in s.sessions && Waker(s.sessions[id]))
    && (forall i, j :: i in s.sessions && j in s.sessions && Waker(s.sessions[i]) && Waker(s.sessions[j]) ==> i == j)
  }

  /** `p` is an absolute position that no locked session outside `todo` is before. */
  ghost predicate Safe(s: State, p: nat, todo: set<nat>) {
    && Gone(s) <= p <= |s.pushed|
    && forall id :: id in s.sessions && id !in todo && s.sessions[id].pc.Locked? ==> p <= s.sessions[id].pc.since
  }

  ghost predicate At(s: State, index: nat, todo: set<nat>)
    requires Slots(s) > 0
  {
    exists p: nat :: Safe(s, p, todo) && index == p % Slots(s)
  }

  /** A blocking scan only arrives at the start of a nonempty queue by arranging to be woken. */
  ghost predicate Blocks(s: State, index: nat, purpose: Purpose)
    requires Slots(s) > 0 && s.size <= s.end + Slots(s)
  {
    !purpose.ForPoll? && s.size > 0 ==> index != StartOf(s)
  }

  ghost predicate ModeInv(s: State)
    requires Slots(s) > 0 && s.size <= s.end + Slots(s)
  {
    match s.mode
    case Free => true
    case Scan(purpose, lowest, todo) =>
      todo <= s.sessions.Keys && At(s, lowest, todo) && Blocks(s, lowest, purpose)
      && (purpose.ForPush? ==> s.size == Slots(s) - 1)
    case Exchange(purpose, lowest, todo, id) =>
      todo <= s.sessions.Keys && id in todo && !s.waiting && At(s, lowest, todo) && Blocks(s, lowest, purpose)
      && !purpose.ForPoll? && (purpose.ForPush? ==> s.size == Slots(s) - 1)
    case Result(purpose, r) =>
      At(s, r, {}) && (Blocks(s, r, purpose) || s.waiting)
      && (purpose.ForPush? ==> s.size == Slots(s) - 1)
    case Ready(_) => s.size < Slots(s) - 1
  }

  ghost predicate Inv(s: State) {
    RingInv(s) && SessionsInv(s) && WaitInv(s) && ModeInv(s)
  }

  // ----- the invariant is kept by every step

  lemma StartIsGone(s: State)
    requires RingInv(s)
    ensures WellFormed(s.(mode := Free)) && StartOf(s) == Gone(s) % Slots(s)
  {
    StartIsPopped(s.slots, s.end, s.size, s.pushed, Gone(s));
  }

  lemma InitInv(n: nat)
    requires 1 < n <= MAX_SLOTS
    ensures Inv(Init(n))
  {
    assert Init(n).pushed[..0] == [];
  }

  /** A session thread changes only its own session: it may not move back in time, and it stays a
      waker or not. */
  lemma OwnSession(s: State, id: nat, x: Session)
    requires Inv(s) && id in s.sessions && SessionInv(s, x) && (Waker(x) <==> Waker(s.sessions[id]))
    requires x.pc.Locked? ==> x.pc == s.sessions[id].pc || x.pc.since == |s.pushed|
    ensures Inv(WithSession(s, id, x))
  {
    var s' := WithSession(s, id, x);
    assert forall i :: i in s'.sessions && i != id ==> s'.sessions[i] == s.sessions[i];
    assert RingInv(s') && SessionsInv(s') by {
      forall i | i in s'.sessions ensures SessionInv(s', s'.sessions[i]) { SameSessionInv(s, s', s'.sessions[i]); }
    }
    assert forall i :: i in s'.sessions ==> (Waker(s'.sessions[i]) <==> Waker(s.sessions[i]));
    assert WaitInv(s');
    OwnSessionMode(s, id, x);
  }

  lemma SameSessionInv(s: State, s': State, x: Session)
    requires Slots(s) == Slots(s') > 0 && Gone(s') == Gone(s) && |s'.pushed| == |s.pushed| && SessionInv(s, x)
    ensures SessionInv(s', x)
  {}

  lemma KeepAt(s: State, s': State, index: nat, todo: set<nat>, todo': set<nat>)
    requires Slots(s) == Slots(s') > 0 && Gone(s') == Gone(s) && |s'.pushed| == |s.pushed| && At(s, index, todo)
    requires forall i :: i in s'.sessions && i !in todo' && s'.sessions[i].pc.Locked? ==>
               s'.sessions[i].pc.since == |s.pushed|
               || (i in s.sessions && i !in todo && s'.sessions[i].pc == s.sessions[i].pc)
    ensures At(s', index, todo')
  {
    var p: nat :| Safe(s, p, todo) && index == p % Slots(s);
    assert Safe(s', p, todo');
  }

  lemma OwnSessionMode(s: State, id: nat, x: Session)
    requires Inv(s) && id in s.sessions
    requires x.pc.Locked? ==> x.pc == s.sessions[id].pc || x.pc.since == |s.pushed|
    ensures Slots(s) > 0 && ModeInv(WithSession(s, id, x))
  {
    var s' := WithSession(s, id, x);
    match s.mode
    case Free =>
    case Ready(_) =>
    case Scan(_, lowest, todo) => KeepAt(s, s', lowest, todo, todo);
    case Exchange(_, lowest, todo, _) => KeepAt(s, s', lowest, todo, todo);
    case Result(_, r) => KeepAt(s, s', r, {}, {});
  }

  lemma LoadEndStep(s: State, id: nat)
    requires Inv(s) && WellFormed(s) && Step(s, LoadEnd(id)).Some?
    ensures Inv(Step(s, LoadEnd(id)).value)
  {
    OwnSession(s, id, s.sessions[id].(pc := Loaded(s.end)));
  }

  lemma StoreStep(s: State, id: nat)
    requires Inv(s) && WellFormed(s) && Step(s, StoreSequence(id)).Some?
    ensures Inv(Step(s, StoreSequence(id)).value)
  {
    assert SessionInv(s, s.sessions[id]);
    var v := s.sessions[id].pc.val;
    OwnSession(s, id, Session(v, Stored(v)));
  }

  lemma RecheckStep(s: State, id: nat)
    requires Inv(s) && WellFormed(s) && Step(s, Recheck(id)).Some?
    ensures Inv(Step(s, Recheck(id)).value)
  {
    var x := s.sessions[id];
    RecheckSession(s, x);
    OwnSession(s, id, x.(pc := if s.end == x.pc.val then Locked(|s.pushed|) else Retrying));
  }

  /** The sequence that was stored is still that of the end of the queue, or the lock is retried. */
  lemma RecheckSession(s: State, x: Session)
    requires RingInv(s) && SessionInv(s, x) && x.pc.Stored?
    ensures SessionInv(s, x.(pc := if s.end == x.pc.val then Locked(|s.pushed|) else Retrying))
  {}

  lemma TakeBackStep(s: State, id: nat)
    requires Inv(s) && WellFormed(s) && Step(s, TakeBack(id)).Some?
    ensures Inv(Step(s, TakeBack(id)).value)
  {
    assert SessionInv(s, s.sessions[id]);
    OwnSession(s, id, Session(NPOS, if HasWaitBit(s.sessions[id].sequence) then Notifying else Idle));
  }

  lemma RegisterStep(s: State, a: Action)
    requires Inv(s) && WellFormed(s) && Step(s, a).Some? && (a.Register? || a.Unregister? || a.Notify?)
    ensures Inv(Step(s, a).value)
  {
    var s' := Step(s, a).value;
    forall i | i in s'.sessions ensures SessionInv(s', s'.sessions[i]) {
      if i in s.sessions && s'.sessions[i] == s.sessions[i] { SameSessionInv(s, s', s.sessions[i]); }
    }
    assert WaitInv(s') by {
      if a.Notify? {
        assert Waker(s.sessions[a.id]);
      } else if s.waiting {
        var w :| w in s.sessions && Waker(s.sessions[w]);
        assert w in s'.sessions && Waker(s'.sessions[w]);
      }
    }
    if s.mode.Result? { KeepAt(s, s', s.mode.r, {}, {}); }
  }

  predicate Scanned(s: State, v: nat) { Scannable(Slots(s), v) }

  lemma ReadIsScanned(s: State, id: nat)
    requires Inv(s) && id in s.sessions
    ensures Scanned(s, Masked(s.sessions[id].sequence))
    ensures !s.waiting ==> Scanned(s, s.sessions[id].sequence)
    ensures s.sessions[id].pc.Locked? ==> Masked(s.sessions[id].sequence) == s.sessions[id].pc.since % Slots(s)
  {
    assert SessionInv(s, s.sessions[id]);
    assert HasWaitBit(s.sessions[id].sequence) ==> Waker(s.sessions[id]);
    match s.sessions[id].pc
    case Locked(since) => assert since % Slots(s) < Slots(s);
    case _ =>
  }

  /** One session is scanned and taken off the list. */
  lemma ScanOne(s: State, id: nat, lowest: nat, todo: set<nat>, v: nat)
    requires Inv(s) && id in s.sessions && At(s, lowest, todo) && Scanned(s, v)
    requires s.sessions[id].pc.Locked? ==> v == s.sessions[id].pc.since % Slots(s)
    ensures At(s, Lower(s, StartOf(s), lowest, v), todo - {id})
    ensures Lower(s, StartOf(s), lowest, v) == lowest || Lower(s, StartOf(s), lowest, v) == v
  {
    var p: nat :| Safe(s, p, todo) && lowest == p % Slots(s);
    StartIsGone(s);
    var p' := LowerIsSafe(Slots(s), |s.pushed|, Gone(s), p, v);
    assert SessionInv(s, s.sessions[id]);
    assert Safe(s, p', todo - {id});
  }

  /** Only the mode changes. */
  lemma OnlyMode(s: State, m: Mode)
    requires Inv(s) && ModeInv(s.(mode := m))
    ensures Inv(s.(mode := m))
  {
    var s' := s.(mode := m);
    forall i | i in s'.sessions ensures SessionInv(s', s'.sessions[i]) { SameSessionInv(s, s', s.sessions[i]); }
  }

  lemma StartIsSafe(s: State)
    requires Inv(s)
    ensures At(s, StartOf(s), {})
  {
    StartIsGone(s);
    forall i | i in s.sessions && s.sessions[i].pc.Locked? ensures Gone(s) <= s.sessions[i].pc.since {
      assert SessionInv(s, s.sessions[i]);
    }
    assert Safe(s, Gone(s), {});
  }

  lemma BeginScanStep(s: State, purpose: Purpose)
    requires Inv(s) && s.mode.Free? && (purpose.ForPush? ==> s.size == Slots(s) - 1)
    ensures Inv(s.(mode := Scan(purpose, s.end, s.sessions.Keys)))
  {
    var s' := s.(mode := Scan(purpose, s.end, s.sessions.Keys));
    StartIsGone(s);
    if s.size > 0 { DistinctSlots(Slots(s), Gone(s), |s.pushed|); }
    assert Safe(s', |s.pushed|, s.sessions.Keys);
    assert At(s', s.end, s.sessions.Keys);
    OnlyMode(s, s'.mode);
  }

  lemma AtSame(s: State, m: Mode, index: nat, todo: set<nat>)
    requires Slots(s) > 0 && At(s, index, todo)
    ensures At(s.(mode := m), index, todo)
  {
    KeepAt(s, s.(mode := m), index, todo, todo);
  }

  lemma ReadStep(s: State, id: nat)
    requires Inv(s) && WellFormed(s) && Step(s, Read(id)).Some?
    ensures Inv(Step(s, Read(id)).value)
  {
    var m := s.mode;
    var v := Masked(s.sessions[id].sequence);
    if v == StartOf(s) && !m.purpose.ForPoll? {
      if s.waiting {
        StartIsSafe(s);
        AtSame(s, Result(m.purpose, StartOf(s)), StartOf(s), {});
        OnlyMode(s, Result(m.purpose, StartOf(s)));
      } else {
        AtSame(s, Exchange(m.purpose, m.lowest, m.todo, id), m.lowest, m.todo);
        OnlyMode(s, Exchange(m.purpose, m.lowest, m.todo, id));
      }
    } else {
      ReadIsScanned(s, id);
      ScanOne(s, id, m.lowest, m.todo, v);
      var m' := Scan(m.purpose, Lower(s, StartOf(s), m.lowest, v), m.todo - {id});
      AtSame(s, m', m'.lowest, m'.todo);
      OnlyMode(s, m');
    }
  }

  lemma CompareExchangeFails(s: State, id: nat)
    requires Inv(s) && WellFormed(s) && Step(s, CompareExchange(id)).Some? && s.sessions[id].sequence != StartOf(s)
    ensures Inv(Step(s, CompareExchange(id)).value)
  {
    var m := s.mode;
    var v := s.sessions[id].sequence;
    ReadIsScanned(s, id);
    assert SessionInv(s, s.sessions[id]);
    ScanOne(s, id, m.lowest, m.todo, v);
    var m' := Scan(m.purpose, Lower(s, StartOf(s), m.lowest, v), m.todo - {id});
    AtSame(s, m', m'.lowest, m'.todo);
    OnlyMode(s, m');
  }

  lemma MarkedSession(s: State, x: Session)
    requires RingInv(s) && SessionInv(s, x) && x.sequence < Slots(s)
    ensures SessionInv(s, x.(sequence := x.sequence + WAIT_BIT)) && Waker(x.(sequence := x.sequence + WAIT_BIT))
  {
    match x.pc
    case Locked(since) => assert since % Slots(s) < Slots(s);
    case _ =>
  }

  /** The one session that is marked becomes the only waker. */
  lemma MarkWaker(s: State, s': State, id: nat)
    requires Slots(s) > 0 && WaitInv(s) && !s.waiting && id in s.sessions && s'.waiting
    requires exists x :: s'.sessions == s.sessions[id := x] && Waker(x)
    ensures WaitInv(s')
  {
    assert Waker(s'.sessions[id]);
    assert forall i :: i in s'.sessions && i != id ==> s'.sessions[i] == s.sessions[i] && !Waker(s.sessions[i]);
  }

  lemma CompareExchangeSucceeds(s: State, id: nat)
    requires Inv(s) && WellFormed(s) && Step(s, CompareExchange(id)).Some? && s.sessions[id].sequence == StartOf(s)
    ensures Inv(Step(s, CompareExchange(id)).value)
  {
    var s' := Step(s, CompareExchange(id)).value;
    var x := s.sessions[id].(sequence := s.sessions[id].sequence + WAIT_BIT);
    StartIsGone(s);
    assert s'.sessions == s.sessions[id := x];
    assert SessionInv(s, s.sessions[id]);
    MarkedSession(s, s.sessions[id]);
    forall i | i in s'.sessions ensures SessionInv(s', s'.sessions[i]) {
      SameSessionInv(s, s', if i == id then x else s.sessions[i]);
    }
    MarkWaker(s, s', id);
    StartIsSafe(s);
    KeepAt(s, s', StartOf(s), {}, {});
  }

  /** The ring and the history change together; locked sessions stay inside the queue. */
  lemma PushStep(s: State, e: Elem)
    requires Inv(s) && s.size < Slots(s) - 1 && (s.mode.Free? || s.mode.Ready?)
    ensures s.end < Slots(s) && s.slots[s.end].None?
    ensures Inv(AfterPush(s, e))
  {
    EndIsEmpty(s.slots, s.end, s.size, s.pushed, Gone(s));
    var s' := AfterPush(s, e);
    HoldsPush(s.slots, s.end, s.size, s.pushed, Gone(s), e);
    assert s'.pushed[..Gone(s)] == s.pushed[..Gone(s)];
    forall i | i in s'.sessions ensures SessionInv(s', s'.sessions[i]) { assert SessionInv(s, s.sessions[i]); }
  }

  lemma {:induction false} SomesAppend(a: seq<Elem>, b: seq<Elem>)
    ensures Somes(a + b) == Somes(a) + Somes(b)
  {
    if a == [] {
      assert a + b == b;
    } else {
      assert (a + b)[1..] == a[1..] + b;
      SomesAppend(a[1..], b);
    }
  }

  lemma {:induction false} SomesLength(a: seq<Elem>)
    ensures |Somes(a)| == |a|
  {
    if a != [] { SomesLength(a[1..]); }
  }

  lemma {:induction false} PoppedLength(slots: seq<Option<Elem>>, start: nat, end: nat)
    requires start < |slots| && end < |slots|
    ensures |Popped(slots, start, end).0| == |slots|
    decreases Distance(|slots|, start, end)
  {
    if start != end { PoppedLength(slots[start := None], Next(|slots|, start), end); }
  }

  lemma PopOut(s: State, p: nat, items: seq<Option<Elem>>)
    requires RingInv(s) && Gone(s) <= p <= |s.pushed| && items == Somes(s.pushed[Gone(s)..p])
    ensures |items| == p - Gone(s) && |s.out + items| == p && s.out + items == Somes(s.pushed[..p])
  {
    var moved := s.pushed[Gone(s)..p];
    SomesAppend(s.pushed[..Gone(s)], moved);
    SomesLength(moved);
    assert s.pushed[..Gone(s)] + moved == s.pushed[..p];
  }

  lemma PopRing(s: State, p: nat, m: Mode)
    requires RingInv(s) && Gone(s) <= p <= |s.pushed|
    ensures WellFormed(s.(mode := Free)) && p % Slots(s) < Slots(s)
    ensures var s' := AfterPop(s, p % Slots(s), m); RingInv(s') && Gone(s') == p
  {
    StartIsGone(s);
    PoppedIsFifo(s.slots, s.end, s.size, s.pushed, Gone(s), p);
    var (slots', items) := Popped(s.slots, StartOf(s), p % Slots(s));
    PopOut(s, p, items);
    assert AfterPop(s, p % Slots(s), m)
      == s.(slots := slots', size := s.size - |items|, out := s.out + items, mode := m);
    PoppedLength(s.slots, StartOf(s), p % Slots(s));
  }

  lemma PopSessions(s: State, s': State)
    requires Slots(s) == Slots(s') > 0 && s'.sessions == s.sessions && s'.pushed == s.pushed
    requires SessionsInv(s) && Gone(s) <= Gone(s') && Safe(s, Gone(s'), {})
    ensures SessionsInv(s')
  {
    forall i | i in s'.sessions ensures SessionInv(s', s'.sessions[i]) { assert SessionInv(s, s.sessions[i]); }
  }

  /** Popping up to a safe position keeps everything, and moves out the oldest elements. */
  lemma PopStep(s: State, r: nat, m: Mode)
    requires Inv(s) && At(s, r, {}) && r < Slots(s)
    requires m.Free? || (m.Ready? && s.size == Slots(s) - 1 && r != StartOf(s))
    ensures Inv(AfterPop(s, r, m))
  {
    var p: nat :| Safe(s, p, {}) && r == p % Slots(s);
    StartIsGone(s);
    PopRing(s, p, m);
    PoppedLength(s.slots, StartOf(s), r);
    var s' := AfterPop(s, r, m);
    PopSessions(s, s');
    assert WaitInv(s');
    assert m.Ready? ==> p != Gone(s);
  }

  lemma EndScanStep(s: State)
    requires Inv(s) && s.mode.Scan? && s.mode.todo == {}
    ensures s.mode.lowest < Slots(s)
    ensures Inv(s.(mode := Result(s.mode.purpose, s.mode.lowest)))
  {
    var p: nat :| Safe(s, p, {}) && s.mode.lowest == p % Slots(s);
    var m := Result(s.mode.purpose, s.mode.lowest);
    AtSame(s, m, s.mode.lowest, {});
    OnlyMode(s, m);
  }

  lemma FinishStep(s: State)
    requires Inv(s) && WellFormed(s) && s.mode.Result?
    ensures Inv(Step(s, Finish).value)
  {
    var p := s.mode.purpose;
    if p.ForPush? && s.mode.r == StartOf(s) {
      OnlyMode(s, Free);
    } else {
      PopStep(s, s.mode.r, if p.ForPush? then Ready(p.e) else Free);
    }
  }

  lemma StepKeepsInv(s: State, a: Action)
    requires Inv(s) && WellFormed(s) && Step(s, a).Some?
    ensures Inv(Step(s, a).value)
  {
    match a
    case LoadEnd(id) => LoadEndStep(s, id);
    case StoreSequence(id) => StoreStep(s, id);
    case Recheck(id) => RecheckStep(s, id);
    case TakeBack(id) => TakeBackStep(s, id);
    case Register(_) => RegisterStep(s, a);
    case Unregister(_) => RegisterStep(s, a);
    case Notify(_) => RegisterStep(s, a);
    case BeginPush(e) => if s.size == Slots(s) - 1 { BeginScanStep(s, ForPush(e)); } else { PushStep(s, e); }
    case BeginPoll => BeginScanStep(s, ForPoll);
    case BeginRun => BeginScanStep(s, ForRun);
    case Read(id) => ReadStep(s, id);
    case CompareExchange(id) =>
      if s.sessions[id].sequence == StartOf(s) { CompareExchangeSucceeds(s, id); } else { CompareExchangeFails(s, id); }
    case EndScan => EndScanStep(s);
    case Finish => FinishStep(s);
    case CompletePush => PushStep(s, s.mode.e);
  }

  // ----- whole runs

  lemma {:induction false} RunInv(run: seq<State>, n: nat, k: nat)
    requires IsRun(run, n) && k < |run|
    ensures Inv(run[k]) && Slots(run[k]) == n
    decreases k
  {
    if k == 0 {
      InitInv(n);
    } else {
      RunInv(run, n, k - 1);
      assert Follows(run[k - 1], run[k]);
      FollowsInv(run[k - 1], run[k]);
    }
  }

  lemma FollowsInv(s: State, s': State)
    requires Inv(s) && Follows(s, s')
    ensures Inv(s') && Slots(s') == Slots(s) && s.pushed <= s'.pushed && s.out <= s'.out
  {
    var a :| Step(s, a) == Some(s');
    StepKeepsInv(s, a);
    StepKeepsSlots(s, a);
  }

  /** No step changes the capacity, forgets a pushed element or takes back a popped one. */
  lemma StepKeepsSlots(s: State, a: Action)
    requires Inv(s) && WellFormed(s) && Step(s, a).Some?
    ensures var s' := Step(s, a).value;
            Slots(s') == Slots(s) && s.pushed <= s'.pushed && s.out <= s'.out
  {
    if a.Finish? { PoppedLength(s.slots, StartOf(s), s.mode.r); }
  }

  /** Nothing that was pushed or moved out is forgotten. */
  ghost predicate Extends(s: State, s': State) { s.pushed <= s'.pushed && s.out <= s'.out }

  ghost predicate Growing(run: seq<State>) {
    forall k: nat {:trigger GrowsAt(run, k)} :: k + 1 < |run| ==> GrowsAt(run, k)
  }

  ghost predicate GrowsAt(run: seq<State>, k: nat)
    requires k + 1 < |run|
  {
    Extends(run[k], run[k + 1])
  }

  lemma {:induction false} GrowingExtends(run: seq<State>, i: nat, k: nat)
    requires Growing(run) && i <= k < |run|
    ensures Extends(run[i], run[k])
    decreases k
  {
    if i < k {
      GrowingExtends(run, i, k - 1);
      assert GrowsAt(run, k - 1);
      ExtendsTransitive(run[i], run[k - 1], run[k]);
    }
  }

  lemma RunExtends(run: seq<State>, n: nat, i: nat, k: nat)
    requires IsRun(run, n) && i <= k < |run|
    ensures Extends(run[i], run[k]) && Slots(run[k]) == Slots(run[i]) == n
  {
    forall j: nat | j + 1 < |run| ensures GrowsAt(run, j) { StepExtends(run, n, j); }
    GrowingExtends(run, i, k);
    RunSlots(run, n, i);
    RunSlots(run, n, k);
  }

  lemma RunSlots(run: seq<State>, n: nat, k: nat)
    requires IsRun(run, n) && k < |run|
    ensures Slots(run[k]) == n
  {
    RunInv(run, n, k);
  }

  lemma ExtendsTransitive(s: State, s': State, s'': State)
    requires Extends(s, s') && Extends(s', s'')
    ensures Extends(s, s'')
  {}

  lemma StepExtends(run: seq<State>, n: nat, k: nat)
    requires IsRun(run, n) && k + 1 < |run|
    ensures Extends(run[k], run[k + 1])
  {
    RunInv(run, n, k);
    assert Follows(run[k], run[k + 1]);
    FollowsInv(run[k], run[k + 1]);
  }

  ghost predicate LockedAt(s: State, id: nat, since: nat) {
    id in s.sessions && s.sessions[id].pc == Locked(since)
  }

  /** The guarantee of the queue: while a session holds its lock, no element pushed after it took the
      lock is moved out. Element number `j` is pushed at some state between `i`, where the session is
      already locked, and `k`, where it still is; then it is still in its slot at `k`. */
  lemma GracePeriod(run: seq<State>, n: nat, id: nat, since: nat, i: nat, k: nat, j: nat)
    requires IsRun(run, n) && i <= k < |run|
    requires forall m :: i <= m <= k ==> LockedAt(run[m], id, since)
    requires |run[i].pushed| <= j < |run[k].pushed|
    ensures Gone(run[k]) <= since <= j
    ensures Slots(run[k]) == n && run[k].slots[j % n] == Some(run[k].pushed[j])
  {
    RunInv(run, n, i);
    RunInv(run, n, k);
    assert LockedAt(run[i], id, since) && LockedAt(run[k], id, since);
    assert SessionInv(run[i], run[i].sessions[id]);
    assert SessionInv(run[k], run[k].sessions[id]);
  }

  /** The queue is an unbounded first-in first-out queue: what has been moved out is a prefix of what
      has been pushed, each element once and in push order, and at most `n - 1` elements wait. */
  lemma Fifo(run: seq<State>, n: nat, k: nat)
    requires IsRun(run, n) && k < |run|
    ensures Gone(run[k]) <= |run[k].pushed| && run[k].out == Somes(run[k].pushed[..Gone(run[k])])
    ensures |run[k].pushed| - Gone(run[k]) == run[k].size <= n - 1
  {
    RunInv(run, n, k);
  }

  /** A push that finds the queue full and cannot pop sleeps only while a session holds the duty to
      wake it (the assertion in `push`), and that duty is held once. */
  lemma SleeperIsWoken(run: seq<State>, n: nat, k: nat)
    requires IsRun(run, n) && k < |run| && run[k].mode.Result? && run[k].mode.purpose.ForPush?
    requires WellFormed(run[k]) && run[k].mode.r == StartOf(run[k])
    ensures exists id :: id in run[k].sessions && Waker(run[k].sessions[id])
                      && forall i :: i in run[k].sessions && Waker(run[k].sessions[i]) ==> i == id
  {
    RunInv(run, n, k);
    var id :| id in run[k].sessions && Waker(run[k].sessions[id]);
  }

  /** Reachable states satisfy the side conditions of `Step`, and a finished scan can always proceed. */
  lemma NoStuckScan(run: seq<State>, n: nat, k: nat)
    requires IsRun(run, n) && k < |run|
    ensures WellFormed(run[k])
    ensures run[k].mode.Scan? && run[k].mode.todo == {} ==> Step(run[k], EndScan).Some?
    ensures run[k].mode.Scan? || run[k].mode.Exchange? ==> run[k].mode.todo <= run[k].sessions.Keys
  {
    RunInv(run, n, k);
    var s := run[k];
    if s.mode.Scan? && s.mode.todo == {} { EndScanStep(s); }
    if s.mode.Result? { var p: nat :| Safe(s, p, {}) && s.mode.r == p % Slots(s); }
  }
}
