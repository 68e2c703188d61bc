/** The single-sender watch channel (src/watch.rs) as a state machine.

Every access to shared memory is one step: the atomics, the value's reader-writer lock, the mutex and
the condition variable. Any number of receivers and the sender are interleaved arbitrarily, and
waiting may end spuriously. `history`, `seen` and `call` are bookkeeping: the values published so far, the
version each receiver was last handed, and the state its last call was made in. */
module Watch {

  /** How a check was entered: a poll, the lock-free start of a wait, or the locked loop of a wait. */
  datatype Mode = Poll | WaitStart | WaitLocked

  datatype ReceiverPc =
    | Idle
    | CheckAlive(mode: Mode)
    | LoadId(mode: Mode)
    | ReadLock(mode: Mode)
    | Cloning(mode: Mode)
    | AcquireMutex
    | EnterWait
    | Asleep
    | Woken
    | Returning

  datatype SenderPc =
    | Ready
    | WriteLock
    | Writing
    | Bumping
    | WriteUnlock
    | LockMutex(dropping: bool)
    | Notifying(dropping: bool)
    | UnlockMutex(dropping: bool)
    | Dropped

  /** What a call was made with: whether it waits, the id, what the receiver had observed, and whether the
  sender was alive. */
  datatype Call = Call(waits: bool, id: nat, before: nat, alive: bool)

  /** What a call returned: nothing yet, `Ok(None)`, the error, or a value. */
  datatype Answer<+T> = Pending | Unchanged | Closed | Handed(v: T)

  datatype Receiver<T> = Receiver(pc: ReceiverPc, lastObserved: nat, seen: nat, call: Call, got: Answer<T>)

  datatype Holder = Nobody | TheSender | AReceiver(who: nat)

  datatype State<T> = State(
    value: T,
    id: nat,
    senderAlive: bool,
    receiverCount: nat,
    writer: bool,
    readers: set<nat>,
    mutex: Holder,
    sender: SenderPc,
    sending: T,
    receivers: map<nat, Receiver<T>>,
    history: seq<T>)

  /** `channel(init)`: version 1 is published and nobody has seen it. */
  function Channel<T>(init: T): State<T> {
    State(init, 1, true, 1, false, {}, Nobody, Ready, init, map[0 := NewReceiver(0)], [init])
  }

  function NewReceiver<T>(lastObserved: nat): Receiver<T> {
    Receiver(Idle, lastObserved, 0, Call(false, 0, 0, true), Pending)
  }

  datatype Action<T> =
    | Send(v: T)
    | SenderStep
    | DropSender
    | CallGetChanged(i: nat)
    | CallWait(i: nat)
    | ReceiverStep(i: nat)
    | SpuriousWake(i: nat)
    | CloneReceiver(i: nat, fresh': nat)
    | DropReceiver(i: nat)

  // ---------------------------------------------------------------- steps

  predicate ReceiverReady<T>(s: State<T>, i: nat)
    requires i in s.receivers
  {
    match s.receivers[i].pc
    case Idle => false
    case Asleep => false
    case ReadLock(_) => !s.writer
    case AcquireMutex => s.mutex == Nobody
    case Woken => s.mutex == Nobody
    case _ => true
  }

  predicate SenderReady<T>(s: State<T>) {
    match s.sender
    case Ready => false
    case Dropped => false
    case WriteLock => !s.writer && s.readers == {}
    case LockMutex(_) => s.mutex == Nobody
    case _ => true
  }

  predicate Enabled<T>(s: State<T>, a: Action<T>) {
    match a
    case Send(_) => s.sender == Ready
    case SenderStep => SenderReady(s)
    case DropSender => s.sender == Ready
    case CallGetChanged(i) => i in s.receivers && s.receivers[i].pc == Idle
    case CallWait(i) => i in s.receivers && s.receivers[i].pc == Idle
    case ReceiverStep(i) => i in s.receivers && ReceiverReady(s, i)
    case SpuriousWake(i) => i in s.receivers && s.receivers[i].pc == Asleep
    case CloneReceiver(i, j) => i in s.receivers && s.receivers[i].pc == Idle && j !in s.receivers
    case DropReceiver(i) => i in s.receivers && s.receivers[i].pc == Idle
  }

  function SetPc<T>(s: State<T>, i: nat, pc: ReceiverPc): State<T>
    requires i in s.receivers
  {
    s.(receivers := s.receivers[i := s.receivers[i].(pc := pc)])
  }

  /** `notify_all`: every sleeper now has to take the mutex again. */
  function WakeAll<T>(rs: map<nat, Receiver<T>>): map<nat, Receiver<T>> {
    map i | i in rs :: if rs[i].pc == Asleep then rs[i].(pc := Woken) else rs[i]
  }

  function StepSender<T>(s: State<T>): State<T>
    requires SenderReady(s)
  {
    match s.sender
    case WriteLock => s.(writer := true, sender := Writing)
    case Writing => s.(value := s.sending, history := s.history + [s.sending], sender := Bumping)
    case Bumping => s.(id := s.id + 1, sender := WriteUnlock)
    case WriteUnlock => s.(writer := false, sender := LockMutex(false))
    case LockMutex(d) => s.(mutex := TheSender, sender := Notifying(d))
    case Notifying(d) => s.(receivers := WakeAll(s.receivers), sender := UnlockMutex(d))
    case UnlockMutex(d) => s.(mutex := Nobody, sender := if d then Dropped else Ready)
  }

  /** The call returns; a locked wait still has its mutex guard to drop. */
  function Leave<T>(s: State<T>, i: nat, mode: Mode, got: Answer<T>): State<T>
    requires i in s.receivers
  {
    var pc := if mode == WaitLocked then Returning else Idle;
    s.(receivers := s.receivers[i := s.receivers[i].(pc := pc, got := got)])
  }

  function Start<T>(s: State<T>, i: nat, waits: bool): State<T>
    requires i in s.receivers
  {
    var r := s.receivers[i];
    var pc := CheckAlive(if waits then WaitStart else Poll);
    s.(receivers := s.receivers[i :=
      r.(pc := pc, call := Call(waits, s.id, r.lastObserved, s.senderAlive), got := Pending)])
  }

  /** What an id equal to the last observed one leads to. */
  function NothingNew<T>(s: State<T>, i: nat, mode: Mode): State<T>
    requires i in s.receivers
  {
    match mode
    case Poll => Leave(s, i, mode, Unchanged)
    case WaitStart => SetPc(s, i, AcquireMutex)
    case WaitLocked => SetPc(s, i, EnterWait)
  }

  function StepReceiver<T>(s: State<T>, i: nat): State<T>
    requires i in s.receivers && ReceiverReady(s, i)
  {
    var r := s.receivers[i];
    match r.pc
    case CheckAlive(m) => if s.senderAlive then SetPc(s, i, LoadId(m)) else Leave(s, i, m, Closed)
    case LoadId(m) =>
      if r.lastObserved == s.id then NothingNew(s, i, m)
      else s.(receivers := s.receivers[i := r.(lastObserved := s.id, pc := ReadLock(m))])
    case ReadLock(m) => SetPc(s, i, Cloning(m)).(readers := s.readers + {i})
    case Cloning(m) =>
      Leave(s.(readers := s.readers - {i}, receivers := s.receivers[i := r.(seen := |s.history|)]), i, m,
        Handed(s.value))
    case AcquireMutex => SetPc(s, i, CheckAlive(WaitLocked)).(mutex := AReceiver(i))
    case EnterWait => SetPc(s, i, Asleep).(mutex := Nobody)
    case Woken => SetPc(s, i, CheckAlive(WaitLocked)).(mutex := AReceiver(i))
    case Returning => SetPc(s, i, Idle).(mutex := Nobody)
  }

  function Apply<T>(s: State<T>, a: Action<T>): State<T>
    requires Enabled(s, a)
  {
    match a
    case Send(v) => if s.receiverCount == 0 then s else s.(sending := v, sender := WriteLock)
    case SenderStep => StepSender(s)
    case DropSender => s.(senderAlive := false, sender := LockMutex(true))
    case CallGetChanged(i) => Start(s, i, false)
    case CallWait(i) => Start(s, i, true)
    case ReceiverStep(i) => StepReceiver(s, i)
    case SpuriousWake(i) => SetPc(s, i, Woken)
    case CloneReceiver(i, j) =>
      s.(receivers := s.receivers[j := NewReceiver(s.receivers[i].lastObserved)],
        receiverCount := s.receiverCount + 1)
    case DropReceiver(i) =>
      s.(receivers := s.receivers - {i}, receiverCount := if s.receiverCount > 0 then s.receiverCount - 1 else 0)
  }

  // ---------------------------------------------------------------- the invariant

  predicate HoldsMutex(pc: ReceiverPc) {
    match pc
    case CheckAlive(m) => m == WaitLocked
    case LoadId(m) => m == WaitLocked
    case ReadLock(m) => m == WaitLocked
    case Cloning(m) => m == WaitLocked
    case EnterWait => true
    case Returning => true
    case _ => false
  }

  predicate SenderHoldsMutex(pc: SenderPc) {
    pc.Notifying? || pc.UnlockMutex?
  }

  /** The sender has published or died, and its `notify_all` is still to come. */
  predicate OwesNotify(pc: SenderPc) {
    pc.WriteUnlock? || pc.LockMutex? || pc.Notifying?
  }

  ghost predicate ReceiverLocks<T>(s: State<T>, i: nat)
    requires i in s.receivers
  {
    && (s.mutex == AReceiver(i) <==> HoldsMutex(s.receivers[i].pc))
    && (i in s.readers <==> s.receivers[i].pc.Cloning?)
  }

  /** Mutex and reader-writer lock are held by exactly those whose next step says so. */
  ghost predicate LocksOk<T>(s: State<T>) {
    && (s.mutex == TheSender <==> SenderHoldsMutex(s.sender))
    && (s.mutex.AReceiver? ==> s.mutex.who in s.receivers)
    && (s.writer <==> s.sender in {Writing, Bumping, WriteUnlock})
    && s.readers <= s.receivers.Keys
    && (s.writer ==> s.readers == {})
    && forall i | i in s.receivers :: ReceiverLocks(s, i)
  }

  predicate Dropping(pc: SenderPc) {
    match pc
    case LockMutex(d) => d
    case Notifying(d) => d
    case UnlockMutex(d) => d
    case Dropped => true
    case _ => false
  }

  /** The value is the newest version; its number and the id differ only inside a write. */
  ghost predicate VersionsOk<T>(s: State<T>) {
    && s.history != [] && s.value == s.history[|s.history| - 1]
    && |s.history| == s.id + (if s.sender == Bumping then 1 else 0)
    && (s.senderAlive <==> !Dropping(s.sender))
    && s.receiverCount == |s.receivers|
  }

  /** One receiver: it never runs ahead of the id, and it sleeps only with nothing to be told. */
  ghost predicate ReceiverOk<T>(s: State<T>, r: Receiver<T>) {
    && r.lastObserved <= s.id && r.seen <= s.id
    && (r.pc == LoadId(WaitLocked) ==> s.senderAlive || OwesNotify(s.sender))
    && (r.pc == EnterWait || r.pc == Asleep ==> (r.lastObserved == s.id && s.senderAlive) || OwesNotify(s.sender))
  }

  ghost predicate Inv<T>(s: State<T>) {
    LocksOk(s) && VersionsOk(s) && forall i | i in s.receivers :: ReceiverOk(s, s.receivers[i])
  }

  lemma {:induction false} ChannelOk<T>(init: T)
    ensures Inv(Channel(init))
  {
  }

  lemma {:induction false} SenderStepKeeps<T>(s: State<T>)
    requires Inv(s) && SenderReady(s)
    ensures Inv(StepSender(s))
  {
    var t := StepSender(s);
    assert t.receivers.Keys == s.receivers.Keys && |t.receivers| == |t.receivers.Keys|;
    SenderStepVersions(s);
    forall i | i in t.receivers ensures ReceiverOk(t, t.receivers[i]) && ReceiverLocks(t, i) {
      SenderStepSeen(s, i);
    }
  }

  lemma {:induction false} SenderStepVersions<T>(s: State<T>)
    requires VersionsOk(s) && SenderReady(s) && |StepSender(s).receivers| == |s.receivers|
    ensures VersionsOk(StepSender(s))
  {
  }

  /** What a step of the sender means to a receiver. */
  lemma {:induction false} SenderStepSeen<T>(s: State<T>, i: nat)
    requires SenderReady(s) && i in s.receivers && i in StepSender(s).receivers
    requires ReceiverOk(s, s.receivers[i]) && ReceiverLocks(s, i)
    requires s.mutex == TheSender <==> SenderHoldsMutex(s.sender)
    ensures ReceiverOk(StepSender(s), StepSender(s).receivers[i]) && ReceiverLocks(StepSender(s), i)
  {
  }

  lemma {:induction false} OwnStepLocks<T>(s: State<T>, i: nat)
    requires i in s.receivers && ReceiverReady(s, i) && ReceiverLocks(s, i)
    requires s.mutex == TheSender <==> SenderHoldsMutex(s.sender)
    requires s.mutex.AReceiver? ==> s.mutex.who in s.receivers
    requires s.writer ==> s.readers == {}
    ensures var t := StepReceiver(s, i);
      && i in t.receivers && ReceiverLocks(t, i)
      && t.sender == s.sender && t.writer == s.writer
      && (t.mutex == TheSender <==> s.mutex == TheSender)
      && (t.mutex.AReceiver? ==> t.mutex.who == i || t.mutex == s.mutex)
      && t.readers <= s.readers + {i}
      && (t.writer ==> t.readers == {})
  {
  }

  lemma {:induction false} ReceiverStepLocks<T>(s: State<T>, i: nat)
    requires Inv(s) && i in s.receivers && ReceiverReady(s, i)
    ensures LocksOk(StepReceiver(s, i))
  {
    var t := StepReceiver(s, i);
    assert t.receivers.Keys == s.receivers.Keys;
    OwnStepLocks(s, i);
    forall j | j in t.receivers ensures ReceiverLocks(t, j) {
      if j != i {
        OtherReceiverUntouched(s, i, j);
      }
    }
  }

  /** A step of one receiver moves nobody else's locks. */
  lemma {:induction false} OtherReceiverUntouched<T>(s: State<T>, i: nat, j: nat)
    requires i in s.receivers && j in s.receivers && i != j && ReceiverReady(s, i)
    requires ReceiverLocks(s, i) && ReceiverLocks(s, j)
    ensures var t := StepReceiver(s, i);
      j in t.receivers && t.receivers[j] == s.receivers[j] && ReceiverLocks(t, j)
  {
  }

  /** What one step of its own does to a receiver. */
  lemma {:induction false} OwnStepOk<T>(s: State<T>, i: nat)
    requires Inv(s) && i in s.receivers && ReceiverReady(s, i)
    ensures var t := StepReceiver(s, i);
      && i in t.receivers && ReceiverOk(t, t.receivers[i]) && t.receivers == s.receivers[i := t.receivers[i]]
      && t.id == s.id && t.senderAlive == s.senderAlive && t.sender == s.sender
      && t.history == s.history && t.value == s.value && t.receiverCount == s.receiverCount
  {
    assert ReceiverOk(s, s.receivers[i]) && ReceiverLocks(s, i);
  }

  lemma {:induction false} ReceiverStepKeeps<T>(s: State<T>, i: nat)
    requires Inv(s) && i in s.receivers && ReceiverReady(s, i)
    ensures Inv(StepReceiver(s, i))
  {
    var t := StepReceiver(s, i);
    ReceiverStepLocks(s, i);
    OwnStepOk(s, i);
    OthersOk(s, t, i);
  }

  /** A receiver that changed only itself leaves the others and the versions in order. */
  lemma {:induction false} OthersOk<T>(s: State<T>, t: State<T>, i: nat)
    requires VersionsOk(s) && forall j | j in s.receivers :: ReceiverOk(s, s.receivers[j])
    requires i in s.receivers && i in t.receivers && t.receivers == s.receivers[i := t.receivers[i]]
    requires ReceiverOk(t, t.receivers[i])
    requires t.id == s.id && t.senderAlive == s.senderAlive && t.sender == s.sender
      && t.history == s.history && t.value == s.value && t.receiverCount == s.receiverCount
    ensures VersionsOk(t) && forall j | j in t.receivers :: ReceiverOk(t, t.receivers[j])
  {
    assert t.receivers.Keys == s.receivers.Keys && |t.receivers| == |t.receivers.Keys|;
    forall j | j in t.receivers ensures ReceiverOk(t, t.receivers[j]) {
      assert ReceiverOk(s, s.receivers[j]);
    }
  }

  /** Starting a call, or waking without a reason, changes only that receiver's next step. */
  lemma {:induction false} CallKeeps<T>(s: State<T>, a: Action<T>)
    requires Inv(s) && Enabled(s, a) && (a.CallGetChanged? || a.CallWait? || a.SpuriousWake?)
    ensures Inv(Apply(s, a))
  {
    var t := Apply(s, a);
    assert t.receivers.Keys == s.receivers.Keys;
    assert |t.receivers| == |t.receivers.Keys|;
    forall j | j in t.receivers ensures ReceiverOk(t, t.receivers[j]) && ReceiverLocks(t, j) {
      assert ReceiverOk(s, s.receivers[j]) && ReceiverLocks(s, j);
    }
  }

  lemma {:induction false} CloneKeeps<T>(s: State<T>, i: nat, j: nat)
    requires Inv(s) && Enabled(s, CloneReceiver(i, j))
    ensures Inv(Apply(s, CloneReceiver(i, j)))
  {
    var t := Apply(s, CloneReceiver(i, j));
    assert t.receivers.Keys == s.receivers.Keys + {j} && |t.receivers| == |t.receivers.Keys|;
    assert ReceiverOk(s, s.receivers[i]);
    forall k | k in t.receivers ensures ReceiverOk(t, t.receivers[k]) && ReceiverLocks(t, k) {
      assert k != j ==> ReceiverOk(s, s.receivers[k]) && ReceiverLocks(s, k);
    }
  }

  lemma {:induction false} DropKeeps<T>(s: State<T>, i: nat)
    requires Inv(s) && Enabled(s, DropReceiver(i))
    ensures Inv(Apply(s, DropReceiver(i)))
  {
    var t := Apply(s, DropReceiver(i));
    assert t.receivers.Keys == s.receivers.Keys - {i} && |t.receivers| == |t.receivers.Keys|;
    assert s.mutex != AReceiver(i) && i !in s.readers by { assert ReceiverLocks(s, i); }
    forall k | k in t.receivers ensures ReceiverOk(t, t.receivers[k]) && ReceiverLocks(t, k) {
      assert t.receivers[k] == s.receivers[k] && ReceiverOk(s, s.receivers[k]) && ReceiverLocks(s, k);
    }
  }

  lemma {:induction false} SenderCallKeeps<T>(s: State<T>, a: Action<T>)
    requires Inv(s) && Enabled(s, a) && (a.Send? || a.DropSender?)
    ensures Inv(Apply(s, a))
  {
    var t := Apply(s, a);
    forall j | j in t.receivers ensures ReceiverOk(t, t.receivers[j]) && ReceiverLocks(t, j) {
      assert ReceiverOk(s, s.receivers[j]) && ReceiverLocks(s, j);
    }
  }

  lemma {:induction false} StepKeeps<T>(s: State<T>, a: Action<T>)
    requires Inv(s) && Enabled(s, a)
    ensures Inv(Apply(s, a))
  {
    match a
    case Send(_) => SenderCallKeeps(s, a);
    case DropSender => SenderCallKeeps(s, a);
    case SenderStep => SenderStepKeeps(s);
    case ReceiverStep(i) => ReceiverStepKeeps(s, i);
    case CloneReceiver(i, j) => CloneKeeps(s, i, j);
    case DropReceiver(i) => DropKeeps(s, i);
    case SpuriousWake(i) => CallKeeps(s, a);
    case CallGetChanged(i) => CallKeeps(s, a);
    case CallWait(i) => CallKeeps(s, a);
  }

  // ---------------------------------------------------------------- runs

  /** `actions` can be taken one after the other from `s`. */
  ghost predicate Runs<T>(s: State<T>, actions: seq<Action<T>>)
    decreases |actions|
  {
    actions == [] || (Enabled(s, actions[0]) && Runs(Apply(s, actions[0]), actions[1..]))
  }

  ghost function After<T>(s: State<T>, actions: seq<Action<T>>): State<T>
    requires Runs(s, actions)
    decreases |actions|
  {
    if actions == [] then s else After(Apply(s, actions[0]), actions[1..])
  }

  lemma {:induction false} RunKeeps<T>(s: State<T>, actions: seq<Action<T>>)
    requires Inv(s) && Runs(s, actions)
    ensures Inv(After(s, actions))
    decreases |actions|
  {
    if actions != [] {
      StepKeeps(s, actions[0]);
      RunKeeps(Apply(s, actions[0]), actions[1..]);
    }
  }

  /** No lost wake-up. In every state of every run of a new channel, a receiver asleep in the condition
  variable has neither an unseen value nor a dead sender behind it, unless the sender is still on its
  way to `notify_all`; and then the mutex it needs is not held by anyone asleep. */
  lemma {:induction false} NoLostWakeup<T>(init: T, actions: seq<Action<T>>, i: nat)
    requires Runs(Channel(init), actions)
    requires var s := After(Channel(init), actions); i in s.receivers && s.receivers[i].pc == Asleep
    ensures var s := After(Channel(init), actions);
      && ((s.receivers[i].lastObserved == s.id && s.senderAlive) || OwesNotify(s.sender))
      && (s.mutex.AReceiver? ==> s.mutex.who in s.receivers && s.receivers[s.mutex.who].pc != Asleep)
      && s.sender != Dropped
  {
    ChannelOk(init);
    RunKeeps(Channel(init), actions);
    var s := After(Channel(init), actions);
    assert ReceiverOk(s, s.receivers[i]);
    if s.mutex.AReceiver? {
      assert ReceiverLocks(s, s.mutex.who);
    }
  }

  /** When the owed `notify_all` runs, nobody is about to fall asleep and nobody stays asleep. */
  lemma {:induction false} NotifyWakesEverybody<T>(s: State<T>)
    requires Inv(s) && s.sender.Notifying?
    ensures forall i | i in s.receivers :: s.receivers[i].pc != EnterWait
    ensures forall i | i in StepSender(s).receivers :: StepSender(s).receivers[i].pc != Asleep
  {
    forall i | i in s.receivers ensures s.receivers[i].pc != EnterWait {
      assert ReceiverLocks(s, i);
    }
  }

  lemma {:induction false} HandedNewest<T>(s: State<T>, i: nat)
    requires Inv(s) && i in s.receivers && s.receivers[i].pc.Cloning?
    ensures var t := Apply(s, ReceiverStep(i));
      && t.receivers[i].seen == s.id == |s.history| > 0 && s.value == s.history[t.receivers[i].seen - 1]
      && s.receivers[i].lastObserved <= t.receivers[i].seen
      && s.receivers[i].seen <= t.receivers[i].seen
  {
    assert ReceiverOk(s, s.receivers[i]) && ReceiverLocks(s, i);
    assert i in s.readers;
  }

  lemma {:induction false} OwnStepMonotone<T>(s: State<T>, j: nat, i: nat)
    requires j in s.receivers && ReceiverReady(s, j) && i in s.receivers
    requires s.receivers[i].lastObserved <= s.id <= |s.history| && s.receivers[i].seen <= s.id
    ensures var t := StepReceiver(s, j);
      i in t.receivers && s.receivers[i].lastObserved <= t.receivers[i].lastObserved
        && s.receivers[i].seen <= t.receivers[i].seen
  {
  }

  lemma {:induction false} StepMonotone<T>(s: State<T>, a: Action<T>, i: nat)
    requires Inv(s) && Enabled(s, a) && i in s.receivers && a != DropReceiver(i)
    ensures i in Apply(s, a).receivers
    ensures s.receivers[i].lastObserved <= Apply(s, a).receivers[i].lastObserved
    ensures s.receivers[i].seen <= Apply(s, a).receivers[i].seen
  {
    assert ReceiverOk(s, s.receivers[i]);
    match a
    case ReceiverStep(j) => OwnStepMonotone(s, j, i);
    case SenderStep => assert s.sender.Notifying? || StepSender(s).receivers == s.receivers;
    case _ =>
  }

  /** Over a whole run, what a receiver has recorded and what it has been handed never go back. */
  lemma {:induction false} VersionsNeverGoBack<T>(s: State<T>, actions: seq<Action<T>>, i: nat)
    requires Inv(s) && Runs(s, actions) && i in s.receivers
    requires DropReceiver(i) !in actions
    ensures i in After(s, actions).receivers
    ensures s.receivers[i].lastObserved <= After(s, actions).receivers[i].lastObserved
    ensures s.receivers[i].seen <= After(s, actions).receivers[i].seen
    decreases |actions|
  {
    if actions != [] {
      StepMonotone(s, actions[0], i);
      StepKeeps(s, actions[0]);
      VersionsNeverGoBack(Apply(s, actions[0]), actions[1..], i);
    }
  }

  /** Somebody is in the middle of a call that does not wait for a new value. */
  ghost predicate Busy<T>(s: State<T>) {
    || (s.sender != Ready && s.sender != Dropped)
    || exists i :: i in s.receivers && s.receivers[i].pc != Idle && s.receivers[i].pc != Asleep
  }

  /** No deadlock: while anybody is in the middle of a call, a thread in the middle of one can step. */
  lemma {:induction false} NoDeadlock<T>(s: State<T>)
    requires Inv(s) && Busy(s)
    ensures SenderReady(s) || exists i :: i in s.receivers && ReceiverReady(s, i)
  {
    if !SenderReady(s) {
      if s.sender == WriteLock {
        assert s.readers != {};
        var i :| i in s.readers;
        assert ReceiverLocks(s, i) && ReceiverReady(s, i);
      } else if s.mutex.AReceiver? {
        var i := s.mutex.who;
        assert ReceiverLocks(s, i) && ReceiverReady(s, i);
      } else {
        var i :| i in s.receivers && s.receivers[i].pc != Idle && s.receivers[i].pc != Asleep;
        assert ReceiverLocks(s, i) && ReceiverReady(s, i);
      }
    }
  }

  // ---------------------------------------------------------------- every call ends

  /** A step inside a call, as opposed to a new call, a population change or a wake-up out of nowhere. */
  predicate Internal<T>(a: Action<T>) {
    a.SenderStep? || a.ReceiverStep?
  }

  /** Steps a sender has left in its call. */
  function SenderRank(pc: SenderPc): nat {
    match pc
    case Ready => 0
    case Dropped => 0
    case UnlockMutex(_) => 1
    case Notifying(_) => 2
    case LockMutex(_) => 3
    case WriteUnlock => 4
    case Bumping => 5
    case Writing => 6
    case WriteLock => 7
  }

  const MAX_RANK: nat := 8

  /** Most steps a receiver can take before it is idle or asleep. */
  function ReceiverRank(pc: ReceiverPc): (rank: nat)
    ensures rank <= MAX_RANK
  {
    match pc
    case Idle => 0
    case Asleep => 0
    case Returning => 1
    case EnterWait => 1
    case Cloning(_) => 2
    case ReadLock(_) => 3
    case LoadId(m) => if m == WaitStart then 7 else 4
    case CheckAlive(m) => if m == WaitStart then 8 else 5
    case AcquireMutex => 6
    case Woken => 6
  }

  ghost function TotalRank<T>(rs: map<nat, Receiver<T>>): nat
    decreases |rs|
  {
    if rs == map[] then 0
    else
      var i :| i in rs;
      RemovedOne(rs, i);
      ReceiverRank(rs[i].pc) + TotalRank(rs - {i})
  }

  lemma {:induction false} RemovedOne<T>(rs: map<nat, Receiver<T>>, i: nat)
    requires i in rs
    ensures |rs - {i}| == |rs| - 1
  {
    assert (rs - {i}).Keys == rs.Keys - {i};
  }

  /** The sum does not depend on the order it is taken in. */
  lemma {:induction false} TotalRankAt<T>(rs: map<nat, Receiver<T>>, i: nat)
    requires i in rs
    ensures TotalRank(rs) == ReceiverRank(rs[i].pc) + TotalRank(rs - {i})
    decreases |rs|
  {
    var j :| j in rs && TotalRank(rs) == ReceiverRank(rs[j].pc) + TotalRank(rs - {j});
    if j != i {
      RemovedOne(rs, i);
      RemovedOne(rs, j);
      TotalRankAt(rs - {j}, i);
      TotalRankAt(rs - {i}, j);
      assert rs - {j} - {i} == rs - {i} - {j};
    }
  }

  lemma {:induction false} TotalRankBound<T>(rs: map<nat, Receiver<T>>)
    ensures TotalRank(rs) <= MAX_RANK * |rs|
    decreases |rs|
  {
    if rs != map[] {
      var i :| i in rs;
      RemovedOne(rs, i);
      TotalRankAt(rs, i);
      TotalRankBound(rs - {i});
    }
  }

  /** Most steps all calls in progress can still take; a notify may set every receiver going again. */
  ghost function Work<T>(s: State<T>): nat {
    SenderRank(s.sender) * (MAX_RANK * |s.receivers| + 1) + TotalRank(s.receivers)
  }

  lemma {:induction false} ReceiverStepWorks<T>(s: State<T>, i: nat)
    requires i in s.receivers && ReceiverReady(s, i)
    ensures Work(StepReceiver(s, i)) < Work(s)
  {
    var t := StepReceiver(s, i);
    OwnRankFalls(s, i);
    assert t.receivers == s.receivers[i := t.receivers[i]];
    assert t.receivers.Keys == s.receivers.Keys && |t.receivers| == |t.receivers.Keys|;
    assert t.receivers - {i} == s.receivers - {i};
    TotalRankAt(s.receivers, i);
    TotalRankAt(t.receivers, i);
  }

  lemma {:induction false} OwnRankFalls<T>(s: State<T>, i: nat)
    requires i in s.receivers && ReceiverReady(s, i)
    ensures var t := StepReceiver(s, i);
      && i in t.receivers && t.receivers == s.receivers[i := t.receivers[i]] && t.sender == s.sender
      && ReceiverRank(t.receivers[i].pc) < ReceiverRank(s.receivers[i].pc)
  {
  }

  lemma {:induction false} SenderStepWorks<T>(s: State<T>)
    requires SenderReady(s)
    ensures Work(StepSender(s)) < Work(s)
  {
    var t := StepSender(s);
    assert t.receivers.Keys == s.receivers.Keys && |t.receivers| == |t.receivers.Keys|;
    TotalRankBound(t.receivers);
    assert SenderRank(t.sender) == SenderRank(s.sender) - 1;
    Distribute(SenderRank(s.sender), MAX_RANK * |s.receivers| + 1);
  }

  lemma {:induction false} Distribute(r: nat, n: nat)
    requires r > 0
    ensures r * n == (r - 1) * n + n
  {
  }

  /** Nobody is in the middle of a call: the sender is done, and every receiver is idle or asleep with the
  newest version seen and the sender alive. */
  ghost predicate Settled<T>(s: State<T>) {
    && (s.sender == Ready || s.sender == Dropped)
    && forall i | i in s.receivers ::
      || s.receivers[i].pc == Idle
      || (s.receivers[i].pc == Asleep && s.receivers[i].lastObserved == s.id && s.senderAlive)
  }

  /** No step inside a call can be taken. */
  ghost predicate Stuck<T>(s: State<T>) {
    !SenderReady(s) && forall i | i in s.receivers :: !ReceiverReady(s, i)
  }

  /** No deadlock: calls come to a halt only when they are all over. */
  lemma {:induction false} StuckIffSettled<T>(s: State<T>)
    requires Inv(s)
    ensures Stuck(s) <==> Settled(s)
  {
    if Stuck(s) {
      if Busy(s) {
        NoDeadlock(s);
        assert false;
      }
      forall i | i in s.receivers && s.receivers[i].pc != Idle
        ensures s.receivers[i].pc == Asleep && s.receivers[i].lastObserved == s.id && s.senderAlive
      {
        assert ReceiverOk(s, s.receivers[i]);
      }
    }
  }

  /** No livelock: from any reachable state, steps inside calls can be taken at most `Work` times whatever
  the schedule, and they run out exactly when nobody is in the middle of a call and every sleeper is up
  to date with a live sender. */
  lemma {:induction false} CallsEnd<T>(s: State<T>, actions: seq<Action<T>>)
    requires Inv(s) && Runs(s, actions) && forall a | a in actions :: Internal(a)
    ensures |actions| + Work(After(s, actions)) <= Work(s)
    ensures Stuck(After(s, actions)) <==> Settled(After(s, actions))
    decreases |actions|
  {
    if actions == [] {
      StuckIffSettled(s);
    } else {
      var a := actions[0];
      assert a in actions && Internal(a);
      StepKeeps(s, a);
      if a.SenderStep? {
        SenderStepWorks(s);
      } else {
        ReceiverStepWorks(s, a.i);
      }
      CallsEnd(Apply(s, a), actions[1..]);
    }
  }

  /** Such a schedule exists from every reachable state. */
  lemma {:induction false} CanSettle<T>(s: State<T>) returns (actions: seq<Action<T>>)
    requires Inv(s)
    ensures Runs(s, actions) && (forall a | a in actions :: Internal(a)) && Settled(After(s, actions))
    decreases Work(s)
  {
    actions := [];
    if Stuck(s) {
      StuckIffSettled(s);
    } else {
      var a: Action<T>;
      if SenderReady(s) {
        a := SenderStep;
        SenderStepWorks(s);
      } else {
        var i :| i in s.receivers && ReceiverReady(s, i);
        a := ReceiverStep(i);
        ReceiverStepWorks(s, i);
      }
      StepKeeps(s, a);
      var rest := CanSettle(Apply(s, a));
      actions := [a] + rest;
      assert actions[1..] == rest;
    }
  }
}
