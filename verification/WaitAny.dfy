/** `waitAny` as a machine of atomic steps: one waiter, any number of senders,
    closers, consumers and other waiters. Every step of the waiter is one
    access to a queue under its lock, one use of the semaphore, or one
    registration or removal of its notifier. */
module WaitAny {

  // ----- states -----

  /** The notifier whose fate is followed; other waiters' notifiers have other numbers. */
  const ME := 0

  /** `pending` counts the senders and closers that have changed the queue and
      have still to call `notifyListeners`. */
  datatype Queue = Queue(open: bool, messages: nat, pending: nat, notifiers: map<int, int>, nextId: int)

  /** Where a check of the queues is made: before the wait, as its predicate,
      as its predicate after the deadline, and for the result. */
  datatype Phase = Initial | Waiting | TimedOut | Final

  /** The three accesses by which one queue is checked for messages. */
  datatype Access = IsClosed | IsDestroyed | IsEmpty

  datatype Outcome = Returned(gotMessage: bool) | Threw

  datatype Pc =
    | Register(k: nat)
    | AllClosed(phase: Phase, k: nat)
    | Message(phase: Phase, k: nat, access: Access)
    | Acquire
    | Remove(k: nat, outcome: Outcome)
    | Done(outcome: Outcome)

  datatype State = State(queues: seq<Queue>, available: bool, ids: seq<int>, pc: Pc)

  /** The call: the queues waited on, perhaps with repetitions, whether there is
      a timeout, whether anyone else takes messages out of queues, and whether
      the size of a queue with messages may be set to 0, so that a send finds
      it that way and empties the queue. */
  datatype Call = Call(queues: seq<nat>, timed: bool, consumers: bool, resizers: bool)

  /** Nobody but the caller makes messages disappear. */
  predicate Undisturbed(c: Call) {
    !c.consumers && !c.resizers
  }

  predicate Fits(c: Call, s: State) {
    forall j | 0 <= j < |c.queues| :: c.queues[j] < |s.queues|
  }

  function Q(c: Call, s: State, j: int): Queue
    requires Fits(c, s) && 0 <= j < |c.queues|
  {
    s.queues[c.queues[j]]
  }

  // ----- the waiter -----

  function AfterFound(phase: Phase): Pc {
    if phase == Final then Remove(0, Returned(true)) else Message(Final, 0, IsClosed)
  }

  function AfterNone(phase: Phase): Pc {
    match phase
    case Initial => AllClosed(Waiting, 0)
    case Waiting => Acquire
    case TimedOut => Message(Final, 0, IsClosed)
    case Final => Remove(0, Returned(false))
  }

  /** The predicate swallows a queue's exception, the other checks pass it on. */
  function AfterThrow(phase: Phase): Pc {
    if phase == Waiting || phase == TimedOut then Message(Final, 0, IsClosed) else Remove(0, Threw)
  }

  function WithNotifier(q: Queue): Queue {
    q.(notifiers := q.notifiers[q.nextId := ME], nextId := q.nextId + 1)
  }

  function WithoutNotifier(q: Queue, id: int): Queue {
    q.(notifiers := map i | i in q.notifiers && i != id :: q.notifiers[i])
  }

  predicate WaiterStep(c: Call, s: State, t: State) {
    && Fits(c, s)
    && match s.pc
       case Register(k) =>
         if k < |c.queues| then
           t == s.(queues := s.queues[c.queues[k] := WithNotifier(Q(c, s, k))], ids := s.ids + [Q(c, s, k).nextId],
               pc := Register(k + 1))
         else t == s.(pc := AllClosed(Initial, 0))
       case AllClosed(phase, k) =>
         t == s.(pc := if k >= |c.queues| then Message(Final, 0, IsClosed)
                       else if Q(c, s, k).open then Message(phase, 0, IsClosed)
                       else AllClosed(phase, k + 1))
       case Message(phase, k, access) =>
         t == s.(pc := if k >= |c.queues| then AfterNone(phase)
                       else match access
                         case IsClosed => if Q(c, s, k).open then Message(phase, k, IsDestroyed)
                             else Message(phase, k + 1, IsClosed)
                         case IsDestroyed => if Q(c, s, k).open then Message(phase, k, IsEmpty) else AfterThrow(phase)
                         case IsEmpty => if Q(c, s, k).messages > 0 then AfterFound(phase)
                             else Message(phase, k + 1, IsClosed))
       case Acquire =>
         || (s.available && t == s.(available := false, pc := AllClosed(Waiting, 0)))
         || (c.timed && !s.available && t == s.(pc := AllClosed(TimedOut, 0)))
       case Remove(k, outcome) =>
         if k < |c.queues| && k < |s.ids| then
           t == s.(queues := s.queues[c.queues[k] := WithoutNotifier(Q(c, s, k), s.ids[k])],
               pc := Remove(k + 1, outcome))
         else t == s.(pc := Done(outcome))
       case Done(_) => false
  }

  // ----- everyone else -----

  datatype Event =
    | Push(q: nat, left: nat)
    | Close(q: nat)
    | Notify(q: nat)
    | NotifyInVain(q: nat)
    | Consume(q: nat, left: nat)
    | OtherRegisters(q: nat, who: int)
    | OtherRemoves(q: nat, id: int)

  /** A send leaves messages behind, unless the size of the queue is 0: then it
      leaves none. */
  predicate Possible(c: Call, s: State, e: Event) {
    && e.q < |s.queues|
    && var q := s.queues[e.q];
       match e
       case Push(_, left) => left > 0 || q.messages == 0 || c.resizers
       case Close(_) => true
       case Notify(_) => q.pending > 0
       case NotifyInVain(_) => true
       case Consume(_, left) => c.consumers && left < q.messages
       case OtherRegisters(_, who) => who != ME
       case OtherRemoves(_, id) => id in q.notifiers && q.notifiers[id] != ME
  }

  /** What an event makes of the queue it is about. */
  function QueueAfter(q: Queue, e: Event): Queue {
    match e
    case Push(_, left) => q.(messages := left, pending := q.pending + 1)
    case Close(_) => q.(open := false, pending := q.pending + 1)
    case Notify(_) => q.(pending := if q.pending > 0 then q.pending - 1 else 0)
    case NotifyInVain(_) => q
    case Consume(_, left) => q.(messages := left)
    case OtherRegisters(_, who) => q.(notifiers := q.notifiers[q.nextId := who], nextId := q.nextId + 1)
    case OtherRemoves(_, id) => WithoutNotifier(q, id)
  }

  predicate Registered(q: Queue) {
    exists id | id in q.notifiers :: q.notifiers[id] == ME
  }

  /** `notifyListeners` releases the semaphore of every notifier registered. */
  predicate Releases(s: State, e: Event)
    requires e.q < |s.queues|
  {
    (e.Notify? || e.NotifyInVain?) && Registered(s.queues[e.q])
  }

  function After(s: State, e: Event): State
    requires e.q < |s.queues|
  {
    s.(queues := s.queues[e.q := QueueAfter(s.queues[e.q], e)], available := s.available || Releases(s, e))
  }

  ghost predicate Step(c: Call, s: State, t: State) {
    WaiterStep(c, s, t) || exists e :: Possible(c, s, e) && t == After(s, e)
  }

  predicate Starts(c: Call, s: State) {
    && Fits(c, s) && s.pc == Register(0) && !s.available && s.ids == []
    && forall q, id | 0 <= q < |s.queues| && id in s.queues[q].notifiers ::
        id < s.queues[q].nextId && s.queues[q].notifiers[id] != ME
  }

  ghost predicate Run(c: Call, run: seq<State>) {
    && run != [] && Starts(c, run[0])
    && forall i, j | 0 <= i && j == i + 1 < |run| :: Step(c, run[i], run[j])
  }

  // ----- whose notifiers are registered -----

  function First(pc: Pc, n: nat): nat {
    match pc
    case Remove(k, _) => k
    case Done(_) => n
    case _ => 0
  }

  function Last(pc: Pc, n: nat): nat {
    if pc.Register? then pc.k else n
  }

  predicate Mine(s: State, q: int, id: int)
    requires 0 <= q < |s.queues|
  {
    id in s.queues[q].notifiers && s.queues[q].notifiers[id] == ME
  }

  /** Exactly the registrations number `lo` up to `hi` stand. */
  ghost predicate Stand(c: Call, s: State, lo: nat, hi: nat) {
    && Fits(c, s) && lo <= hi <= |c.queues| && |s.ids| == (if s.pc.Register? then hi else |c.queues|)
    && (forall j | lo <= j < hi :: Mine(s, c.queues[j], s.ids[j]))
    && (forall j, k | lo <= j < k < hi && c.queues[j] == c.queues[k] :: s.ids[j] != s.ids[k])
    && (forall q, id | 0 <= q < |s.queues| && Mine(s, q, id) :: exists j | lo <= j < hi ::
        c.queues[j] == q && s.ids[j] == id)
    && (forall q, id | 0 <= q < |s.queues| && id in s.queues[q].notifiers :: id < s.queues[q].nextId)
  }

  ghost predicate OwnNotifiers(c: Call, s: State) {
    && (s.pc.Register? || s.pc.Remove? ==> s.pc.k <= |c.queues|)
    && Stand(c, s, First(s.pc, |c.queues|), Last(s.pc, |c.queues|))
  }

  lemma StandsAfterEvent(c: Call, s: State, e: Event, lo: nat, hi: nat)
    requires Stand(c, s, lo, hi) && Possible(c, s, e)
    ensures Stand(c, After(s, e), lo, hi)
  {
    var t := After(s, e);
    forall q, id | 0 <= q < |s.queues|
      ensures Mine(t, q, id) == Mine(s, q, id)
      ensures id in t.queues[q].notifiers ==> id < t.queues[q].nextId
    {
    }
  }

  /** Registering adds one entry, under an id not used before. */
  lemma Registers(c: Call, s: State, t: State, k: nat, id: int)
    requires s.pc == Register(k) && k < |c.queues| && Fits(c, s) && WaiterStep(c, s, t) && id == Q(c, s, k).nextId
    requires forall q, i | 0 <= q < |s.queues| && i in s.queues[q].notifiers :: i < s.queues[q].nextId
    ensures |t.queues| == |s.queues| && t.ids == s.ids + [id] && t.pc == Register(k + 1)
    ensures forall q, i | 0 <= q < |t.queues| && i in t.queues[q].notifiers :: i < t.queues[q].nextId
    ensures forall q, i | 0 <= q < |s.queues| :: Mine(t, q, i) == (Mine(s, q, i) || (q == c.queues[k] && i == id))
    ensures !Mine(s, c.queues[k], id)
  {
  }

  lemma StandsAfterRegistering(c: Call, s: State, t: State, k: nat)
    requires s.pc == Register(k) && k < |c.queues| && Stand(c, s, 0, k) && WaiterStep(c, s, t)
    ensures Stand(c, t, 0, k + 1)
  {
    var me, new_ := c.queues[k], Q(c, s, k).nextId;
    Registers(c, s, t, k, new_);
    hide WaiterStep, Mine, Q;
    assert t.ids[k] == new_;
    forall j | 0 <= j < k
      ensures t.ids[j] == s.ids[j] && Mine(t, c.queues[j], t.ids[j])
      ensures c.queues[j] == me ==> t.ids[j] != t.ids[k]
    {
      assert Mine(s, c.queues[j], s.ids[j]);
    }
    forall q, id | 0 <= q < |t.queues| && Mine(t, q, id)
      ensures exists j | 0 <= j < k + 1 :: c.queues[j] == q && t.ids[j] == id
    {
      if Mine(s, q, id) {
        var j :| 0 <= j < k && c.queues[j] == q && s.ids[j] == id;
        assert t.ids[j] == id;
      } else {
        assert c.queues[k] == q && t.ids[k] == id;
      }
    }
  }

  lemma Removes(c: Call, s: State, t: State, k: nat)
    requires s.pc.Remove? && s.pc.k == k < |c.queues| && k < |s.ids| && Fits(c, s) && WaiterStep(c, s, t)
    requires forall q, i | 0 <= q < |s.queues| && i in s.queues[q].notifiers :: i < s.queues[q].nextId
    ensures |t.queues| == |s.queues| && t.ids == s.ids && t.pc == Remove(k + 1, s.pc.outcome)
    ensures forall q, i | 0 <= q < |t.queues| && i in t.queues[q].notifiers :: i < t.queues[q].nextId
    ensures forall q, i | 0 <= q < |s.queues| ::
              Mine(t, q, i) == (Mine(s, q, i) && !(q == c.queues[k] && i == s.ids[k]))
  {
  }

  lemma StandsAfterRemoving(c: Call, s: State, t: State, k: nat)
    requires s.pc.Remove? && s.pc.k == k < |c.queues| && Stand(c, s, k, |c.queues|) && WaiterStep(c, s, t)
    ensures Stand(c, t, k + 1, |c.queues|)
  {
    Removes(c, s, t, k);
    hide WaiterStep, Mine, Q;
    forall j | k + 1 <= j < |c.queues|
      ensures Mine(t, c.queues[j], t.ids[j])
    {
      assert Mine(s, c.queues[j], s.ids[j]);
      assert c.queues[k] == c.queues[j] ==> s.ids[k] != s.ids[j];
    }
    forall q, id | 0 <= q < |t.queues| && Mine(t, q, id)
      ensures exists j | k + 1 <= j < |c.queues| :: c.queues[j] == q && t.ids[j] == id
    {
      var j :| k <= j < |c.queues| && c.queues[j] == q && s.ids[j] == id;
      assert t.ids[j] == id;
    }
  }

  lemma OwnNotifiersStay(c: Call, s: State, t: State)
    requires OwnNotifiers(c, s) && Step(c, s, t)
    ensures OwnNotifiers(c, t)
  {
    if WaiterStep(c, s, t) {
      if s.pc.Register? && s.pc.k < |c.queues| {
        StandsAfterRegistering(c, s, t, s.pc.k);
      } else if s.pc.Remove? && s.pc.k < |c.queues| {
        StandsAfterRemoving(c, s, t, s.pc.k);
      } else {
        StandsElsewhere(c, s, t);
      }
    } else {
      var e :| Possible(c, s, e) && t == After(s, e);
      StandsAfterEvent(c, s, e, First(s.pc, |c.queues|), Last(s.pc, |c.queues|));
    }
  }

  /** The waiter's other steps leave all queues and registrations alone. */
  lemma StandsElsewhere(c: Call, s: State, t: State)
    requires OwnNotifiers(c, s) && WaiterStep(c, s, t)
    requires (s.pc.Register? || s.pc.Remove?) ==> s.pc.k == |c.queues|
    ensures t.queues == s.queues && OwnNotifiers(c, t)
  {
    hide Q;
    assert t.queues == s.queues && t.ids == s.ids;
    assert First(t.pc, |c.queues|) == First(s.pc, |c.queues|) && Last(t.pc, |c.queues|) == Last(s.pc, |c.queues|);
    assert !t.pc.Register? && (t.pc.Remove? ==> t.pc.k <= |c.queues|);
    if s.pc.Register? {
      assert |s.ids| == |c.queues|;
    }
    forall q, id | 0 <= q < |s.queues|
      ensures Mine(t, q, id) == Mine(s, q, id)
    {
    }
  }

  // ----- no lost wake-up -----

  predicate Signalled(c: Call, s: State, j: int)
    requires Fits(c, s) && 0 <= j < |c.queues|
  {
    s.available || Q(c, s, j).pending > 0
  }

  predicate HasMessage(c: Call, s: State, j: int)
    requires Fits(c, s) && 0 <= j < |c.queues|
  {
    Q(c, s, j).open && Q(c, s, j).messages > 0
  }

  /** None of the first `k` queues has a message of which no word is on its way. */
  ghost predicate NothingMissed(c: Call, s: State, k: nat)
    requires Fits(c, s)
  {
    forall j | 0 <= j < k && j < |c.queues| :: HasMessage(c, s, j) ==> Signalled(c, s, j)
  }

  /** The queues have not all been closed without word of it on its way. */
  ghost predicate NoCloseMissed(c: Call, s: State)
    requires Fits(c, s)
  {
    exists j | 0 <= j < |c.queues| :: Q(c, s, j).open || Signalled(c, s, j)
  }

  ghost predicate NothingLost(c: Call, s: State)
    requires Fits(c, s)
  {
    match s.pc
    case Message(phase, k, _) => phase == Waiting ==> NothingMissed(c, s, k) && NoCloseMissed(c, s)
    case Acquire => NothingMissed(c, s, |c.queues|) && NoCloseMissed(c, s)
    case _ => true
  }

  lemma NothingLostByWaiter(c: Call, s: State, t: State)
    requires Fits(c, s) && NothingLost(c, s) && WaiterStep(c, s, t)
    ensures Fits(c, t) && NothingLost(c, t)
  {
    if s.pc.AllClosed? && s.pc.k < |c.queues| && Q(c, s, s.pc.k).open {
      assert Q(c, t, s.pc.k).open;
    } else if s.pc.Message? && s.pc.phase == Waiting && t.pc != s.pc && (t.pc.Message? || t.pc == Acquire) {
      assert forall j | 0 <= j < |c.queues| ::
          Signalled(c, s, j) == Signalled(c, t, j) && HasMessage(c, s, j) == HasMessage(c, t, j);
      assert NoCloseMissed(c, t) by {
        var j :| 0 <= j < |c.queues| && (Q(c, s, j).open || Signalled(c, s, j));
        assert Q(c, t, j).open || Signalled(c, t, j);
      }
    }
  }

  lemma WordStaysOnItsWay(c: Call, s: State, e: Event, j: int)
    requires Stand(c, s, 0, |c.queues|) && Possible(c, s, e) && 0 <= j < |c.queues|
    ensures Signalled(c, s, j) ==> Signalled(c, After(s, e), j)
    ensures HasMessage(c, After(s, e), j) ==> HasMessage(c, s, j) || Signalled(c, After(s, e), j)
    ensures Q(c, s, j).open ==> Q(c, After(s, e), j).open || Signalled(c, After(s, e), j)
  {
    assert Mine(s, c.queues[j], s.ids[j]);
  }

  lemma NothingLostByOthers(c: Call, s: State, e: Event)
    requires OwnNotifiers(c, s) && NothingLost(c, s) && Possible(c, s, e)
    ensures Fits(c, After(s, e)) && NothingLost(c, After(s, e))
  {
    var t := After(s, e);
    if s.pc.Acquire? || (s.pc.Message? && s.pc.phase == Waiting) {
      forall j | 0 <= j < |c.queues|
        ensures HasMessage(c, t, j) ==> HasMessage(c, s, j) || Signalled(c, t, j)
        ensures Signalled(c, s, j) ==> Signalled(c, t, j)
      {
        WordStaysOnItsWay(c, s, e, j);
      }
      var j :| 0 <= j < |c.queues| && (Q(c, s, j).open || Signalled(c, s, j));
      WordStaysOnItsWay(c, s, e, j);
      assert Q(c, t, j).open || Signalled(c, t, j);
    }
  }

  // ----- what the outcome means -----

  ghost predicate SomeClosed(c: Call, s: State)
    requires Fits(c, s)
  {
    exists j | 0 <= j < |c.queues| :: !Q(c, s, j).open
  }

  ghost predicate MessageFrom(c: Call, s: State, k: nat)
    requires Fits(c, s)
  {
    exists j | k <= j < |c.queues| :: Q(c, s, j).messages > 0
  }

  /** An exception comes from a closed queue. A call without a timeout, the only
      consumer of its queues, answers false only if one of them is closed. */
  ghost predicate OutcomeJustified(c: Call, s: State)
    requires Fits(c, s)
  {
    var patient := !c.timed && Undisturbed(c) && c.queues != [];
    match s.pc
    case AllClosed(phase, k) =>
      && phase != Final && (phase == TimedOut ==> c.timed)
      && forall j | 0 <= j < k && j < |c.queues| :: !Q(c, s, j).open
    case Message(phase, k, _) =>
      && (phase == TimedOut ==> c.timed)
      && (phase == Final && patient ==> SomeClosed(c, s) || MessageFrom(c, s, k))
    case Remove(_, outcome) => OutcomeMeans(c, s, outcome)
    case Done(outcome) => OutcomeMeans(c, s, outcome)
    case _ => true
  }

  ghost predicate OutcomeMeans(c: Call, s: State, outcome: Outcome)
    requires Fits(c, s)
  {
    var telling := outcome == Threw || (outcome == Returned(false) && !c.timed && Undisturbed(c) && c.queues != []);
    telling ==> SomeClosed(c, s)
  }

  lemma SameQueues(c: Call, s: State, t: State, k: nat)
    requires Fits(c, s) && Fits(c, t)
    requires forall j | 0 <= j < |c.queues| ::
              Q(c, t, j).open == Q(c, s, j).open && Q(c, t, j).messages == Q(c, s, j).messages
    ensures SomeClosed(c, t) == SomeClosed(c, s) && MessageFrom(c, t, k) == MessageFrom(c, s, k)
  {
    assert forall j | 0 <= j < |c.queues| ::
        Q(c, t, j).open == Q(c, s, j).open && Q(c, t, j).messages == Q(c, s, j).messages;
  }

  lemma JustifiedFromMessage(c: Call, s: State, t: State)
    requires Fits(c, s) && OutcomeJustified(c, s) && WaiterStep(c, s, t) && s.pc.Message?
    ensures Fits(c, t) && OutcomeJustified(c, t)
  {
    var k := s.pc.k;
    assert t.queues == s.queues;
    hide SomeClosed, MessageFrom;
    SameQueues(c, s, t, 0);
    SameQueues(c, s, t, k);
    SameQueues(c, s, t, k + 1);
    if k < |c.queues| {
      MessageAt(c, s, k);
    } else {
      NoMessageFrom(c, s, k);
    }
  }

  lemma MessageAt(c: Call, s: State, k: nat)
    requires Fits(c, s) && k < |c.queues|
    ensures !Q(c, s, k).open ==> SomeClosed(c, s)
    ensures Q(c, s, k).messages > 0 ==> MessageFrom(c, s, 0)
    ensures Q(c, s, k).messages == 0 && MessageFrom(c, s, k) ==> MessageFrom(c, s, k + 1)
  {
  }

  lemma NoMessageFrom(c: Call, s: State, k: nat)
    requires Fits(c, s) && k >= |c.queues|
    ensures !MessageFrom(c, s, k)
  {
  }

  lemma JustifiedByWaiter(c: Call, s: State, t: State)
    requires Fits(c, s) && OutcomeJustified(c, s) && WaiterStep(c, s, t)
    ensures Fits(c, t) && OutcomeJustified(c, t)
  {
    if s.pc.Message? {
      JustifiedFromMessage(c, s, t);
    } else if s.pc.AllClosed? {
      assert forall j | 0 <= j < |c.queues| :: Q(c, t, j).open == Q(c, s, j).open;
      if s.pc.k >= |c.queues| && c.queues != [] {
        assert !Q(c, s, 0).open && !Q(c, t, 0).open;
      }
    } else if s.pc.Remove? {
      assert forall j | 0 <= j < |c.queues| ::
          Q(c, t, j).open == Q(c, s, j).open && Q(c, t, j).messages == Q(c, s, j).messages;
      SameQueues(c, s, t, 0);
    }
  }

  lemma JustifiedByOthers(c: Call, s: State, e: Event)
    requires Fits(c, s) && OutcomeJustified(c, s) && Possible(c, s, e)
    ensures Fits(c, After(s, e)) && OutcomeJustified(c, After(s, e))
  {
    var t := After(s, e);
    assert forall j | 0 <= j < |c.queues| :: !Q(c, s, j).open ==> !Q(c, t, j).open;
    if SomeClosed(c, s) {
      var j :| 0 <= j < |c.queues| && !Q(c, s, j).open;
      assert !Q(c, t, j).open;
    }
    if s.pc.Message? && MessageFrom(c, s, s.pc.k) && Undisturbed(c) {
      var j :| s.pc.k <= j < |c.queues| && Q(c, s, j).messages > 0;
      assert Q(c, t, j).messages > 0;
    }
  }

  // ----- whole runs -----

  ghost predicate Safe(c: Call, s: State) {
    OwnNotifiers(c, s) && NothingLost(c, s) && OutcomeJustified(c, s)
  }

  lemma SafeAtFirst(c: Call, s: State)
    requires Starts(c, s)
    ensures Safe(c, s)
  {
  }

  lemma SafeStays(c: Call, s: State, t: State)
    requires Safe(c, s) && Step(c, s, t)
    ensures Safe(c, t)
  {
    hide OwnNotifiers, NothingLost, OutcomeJustified, WaiterStep, After, QueueAfter;
    assert Fits(c, s) by { OwnNotifiersFit(c, s); }
    OwnNotifiersStay(c, s, t);
    if WaiterStep(c, s, t) {
      NothingLostByWaiter(c, s, t);
      JustifiedByWaiter(c, s, t);
    } else {
      var e :| Possible(c, s, e) && t == After(s, e);
      NothingLostByOthers(c, s, e);
      JustifiedByOthers(c, s, e);
    }
  }

  lemma OwnNotifiersFit(c: Call, s: State)
    requires OwnNotifiers(c, s)
    ensures Fits(c, s)
  {
  }

  lemma {:induction false} AlwaysSafe(c: Call, run: seq<State>, i: nat)
    requires Run(c, run) && i < |run|
    ensures Safe(c, run[i])
  {
    hide Safe, Step, Starts;
    if i == 0 {
      SafeAtFirst(c, run[0]);
    } else {
      AlwaysSafe(c, run, i - 1);
      SafeStays(c, run[i - 1], run[i]);
    }
  }

  /** In every run, while the waiter sleeps and a queue has a message or all
      are closed, it has been woken or the one who changed some queue on which
      it is registered has still to notify. */
  lemma NoLostWakeUp(c: Call, run: seq<State>, i: nat)
    requires Run(c, run) && i < |run| && run[i].pc == Acquire
    ensures Fits(c, run[i]) && |run[i].ids| == |c.queues|
    ensures (exists j | 0 <= j < |c.queues| :: HasMessage(c, run[i], j))
            || !(exists j | 0 <= j < |c.queues| :: Q(c, run[i], j).open)
            ==> run[i].available || exists j | 0 <= j < |c.queues| ::
                Q(c, run[i], j).pending > 0 && Mine(run[i], c.queues[j], run[i].ids[j])
  {
    AlwaysSafe(c, run, i);
    var s := run[i];
    if exists j | 0 <= j < |c.queues| :: HasMessage(c, s, j) {
      var j :| 0 <= j < |c.queues| && HasMessage(c, s, j);
      assert Signalled(c, s, j) && Mine(s, c.queues[j], s.ids[j]);
    } else if !(exists j | 0 <= j < |c.queues| :: Q(c, s, j).open) {
      var j :| 0 <= j < |c.queues| && (Q(c, s, j).open || Signalled(c, s, j));
      assert Signalled(c, s, j) && Mine(s, c.queues[j], s.ids[j]);
    }
  }

  /** When that notification comes, the sleeping waiter can look again. */
  lemma NotificationWakes(c: Call, run: seq<State>, i: nat, j: nat)
    requires Run(c, run) && i < |run| && run[i].pc == Acquire && j < |c.queues|
    ensures Fits(c, run[i])
    ensures var t := After(run[i], Notify(c.queues[j]));
            t.available && WaiterStep(c, t, t.(available := false, pc := AllClosed(Waiting, 0)))
  {
    AlwaysSafe(c, run, i);
    assert Mine(run[i], c.queues[j], run[i].ids[j]);
  }

  /** However `waitAny` is left, none of its notifiers is left on any queue. */
  lemma NothingLeftBehind(c: Call, run: seq<State>, i: nat)
    requires Run(c, run) && i < |run| && run[i].pc.Done?
    ensures forall q, id | 0 <= q < |run[i].queues| :: !Mine(run[i], q, id)
  {
    AlwaysSafe(c, run, i);
  }

  /** The waiter's own steps never touch anyone else's registration. */
  lemma OthersKeepTheirNotifiers(c: Call, run: seq<State>, i: nat, t: State, q: nat, id: int)
    requires Run(c, run) && i < |run| && WaiterStep(c, run[i], t) && q < |run[i].queues|
    requires !Mine(run[i], q, id)
    ensures q < |t.queues| && (Mine(t, q, id) ==> id !in run[i].queues[q].notifiers)
    ensures id in run[i].queues[q].notifiers ==>
              id in t.queues[q].notifiers && t.queues[q].notifiers[id] == run[i].queues[q].notifiers[id]
  {
    AlwaysSafe(c, run, i);
    var s := run[i];
    if s.pc.Remove? && s.pc.k < |c.queues| {
      assert Mine(s, c.queues[s.pc.k], s.ids[s.pc.k]);
    }
  }

  /** An exception, or the answer false to a patient caller, means a closed queue. */
  lemma OutcomeTellsOfClosing(c: Call, run: seq<State>, i: nat)
    requires Run(c, run) && i < |run| && run[i].pc.Done?
    requires run[i].pc.outcome == Threw
              || (run[i].pc.outcome == Returned(false) && !c.timed && Undisturbed(c) && c.queues != [])
    ensures Fits(c, run[i]) && exists j | 0 <= j < |c.queues| :: !Q(c, run[i], j).open
  {
    AlwaysSafe(c, run, i);
  }

  // ----- what was seen when the outcome was decided -----

  /** The answer true comes of a queue that was found open and then had a message. */
  lemma {:induction false} TrueMeansMessage(c: Call, run: seq<State>, i: nat) returns (l: nat, m: nat, j: nat)
    requires Run(c, run) && i < |run|
    requires run[i].pc == Done(Returned(true)) || (run[i].pc.Remove? && run[i].pc.outcome == Returned(true))
    ensures l <= m < i && j < |c.queues| && Fits(c, run[l]) && Fits(c, run[m])
    ensures Q(c, run[l], j).open && Q(c, run[m], j).messages > 0
  {
    var s, t := run[i - 1], run[i];
    assert Step(c, s, t);
    if (s.pc.Remove? && s.pc.outcome == Returned(true)) || s.pc == Done(Returned(true)) {
      l, m, j := TrueMeansMessage(c, run, i - 1);
    } else {
      assert WaiterStep(c, s, t) && s.pc == Message(Final, s.pc.k, IsEmpty) && s.pc.k < |c.queues|;
      m, j := i - 1, s.pc.k;
      l := FoundOpen(c, run, m);
    }
  }

  /** A queue that is looked into was found open before. */
  lemma {:induction false} FoundOpen(c: Call, run: seq<State>, i: nat) returns (l: nat)
    requires Run(c, run) && i < |run| && run[i].pc.Message? && run[i].pc.access != IsClosed
    ensures l <= i && run[i].pc.k < |c.queues| && Fits(c, run[l]) && Q(c, run[l], run[i].pc.k).open
  {
    var s, t := run[i - 1], run[i];
    assert Step(c, s, t);
    if s.pc == t.pc {
      l := FoundOpen(c, run, i - 1);
    } else {
      l := i - 1;
    }
  }

  /** Queue `j` had nothing to give when the final check looked at it. */
  ghost predicate FoundNothing(c: Call, s: State, j: nat) {
    && Fits(c, s) && j < |c.queues| && s.pc.Message? && s.pc.phase == Final && s.pc.k == j
    && (!Q(c, s, j).open || Q(c, s, j).messages == 0)
  }

  /** The queues that the final check has left behind, or all if it is over. */
  function Passed(c: Call, pc: Pc): nat {
    match pc
    case Message(Final, k, _) => if k < |c.queues| then k else |c.queues|
    case Remove(_, Returned(false)) => |c.queues|
    case Done(Returned(false)) => |c.queues|
    case _ => 0
  }

  lemma {:induction false} PassedFoundNothing(c: Call, run: seq<State>, i: nat, j: nat) returns (m: nat)
    requires Run(c, run) && i < |run| && j < Passed(c, run[i].pc)
    ensures m < i && FoundNothing(c, run[m], j)
  {
    var s, t := run[i - 1], run[i];
    assert Step(c, s, t);
    if j < Passed(c, s.pc) {
      m := PassedFoundNothing(c, run, i - 1, j);
    } else {
      assert WaiterStep(c, s, t);
      m := i - 1;
    }
  }

  /** The answer false comes of a final check, made after any deadline, in which
      every queue was at some moment closed or empty. */
  lemma FalseMeansNothingFound(c: Call, run: seq<State>, i: nat, j: nat) returns (m: nat)
    requires Run(c, run) && i < |run| && run[i].pc == Done(Returned(false)) && j < |c.queues|
    ensures m < i && Fits(c, run[m]) && run[m].pc.Message? && run[m].pc.phase == Final && run[m].pc.k == j
    ensures !Q(c, run[m], j).open || Q(c, run[m], j).messages == 0
  {
    m := PassedFoundNothing(c, run, i, j);
  }

  /** With a timeout or without, a call does not answer true if the queues stay
      empty. */
  lemma EmptyIsNotAnsweredTrue(c: Call, run: seq<State>, i: nat)
    requires Run(c, run) && i < |run| && run[i].pc.Done?
    requires forall m, j | 0 <= m < i && 0 <= j < |c.queues| :: Fits(c, run[m]) && Q(c, run[m], j).messages == 0
    ensures run[i].pc.outcome != Returned(true)
  {
    if run[i].pc.outcome == Returned(true) {
      var l, m, j := TrueMeansMessage(c, run, i);
    }
  }

  /** Nor false if one queue is open and holds a message all through the final check. */
  lemma MessageIsNotAnsweredFalse(c: Call, run: seq<State>, i: nat, j: nat)
    requires Run(c, run) && i < |run| && run[i].pc.Done? && j < |c.queues|
    requires forall m | 0 <= m < i && run[m].pc.Message? && run[m].pc.phase == Final ::
              Fits(c, run[m]) && HasMessage(c, run[m], j)
    ensures run[i].pc.outcome != Returned(false)
  {
    if run[i].pc.outcome == Returned(false) {
      var m := FalseMeansNothingFound(c, run, i, j);
    }
  }

  /** Queue `k` was closed after the check in hand found it open. */
  predicate ClosedMeanwhile(c: Call, s: State) {
    && Fits(c, s) && s.pc.Message? && s.pc.k < |c.queues| && s.pc.access == IsDestroyed && !Q(c, s, s.pc.k).open
  }

  /** A check that hits a queue closed meanwhile makes the call throw, unless it
      is made for the wait: then the call goes on to the final check. */
  lemma {:induction false} ClosedMeanwhileThrows(c: Call, run: seq<State>, m: nat, i: nat)
    requires Run(c, run) && m < i < |run| && ClosedMeanwhile(c, run[m]) && WaiterStep(c, run[m], run[m + 1])
    ensures run[m].pc.phase == Waiting || run[m].pc.phase == TimedOut ==> run[m + 1].pc == Message(Final, 0, IsClosed)
    ensures run[m].pc.phase == Initial || run[m].pc.phase == Final ==>
              (run[i].pc.Remove? || run[i].pc.Done?) && run[i].pc.outcome == Threw
    decreases i
  {
    if i > m + 1 {
      ClosedMeanwhileThrows(c, run, m, i - 1);
      assert Step(c, run[i - 1], run[i]);
    }
  }

  /** And nothing else does. */
  lemma {:induction false} ThrowsOnlyThen(c: Call, run: seq<State>, i: nat) returns (m: nat)
    requires Run(c, run) && i < |run| && (run[i].pc.Remove? || run[i].pc.Done?) && run[i].pc.outcome == Threw
    ensures m < i && ClosedMeanwhile(c, run[m]) && (run[m].pc.phase == Initial || run[m].pc.phase == Final)
    ensures WaiterStep(c, run[m], run[m + 1])
  {
    var s, t := run[i - 1], run[i];
    assert Step(c, s, t);
    if (s.pc.Remove? || s.pc.Done?) && s.pc.outcome == Threw {
      m := ThrowsOnlyThen(c, run, i - 1);
    } else {
      m := i - 1;
      OutcomeJustifiedAt(c, run, m);
    }
  }

  lemma OutcomeJustifiedAt(c: Call, run: seq<State>, i: nat)
    requires Run(c, run) && i < |run|
    ensures Fits(c, run[i]) && OutcomeJustified(c, run[i])
  {
    AlwaysSafe(c, run, i);
  }

  /** Until it is done the waiter can take a step, and asleep too once it is woken
      or if it has a deadline. */
  lemma WaiterGoesOn(c: Call, run: seq<State>, i: nat) returns (t: State)
    requires Run(c, run) && i < |run| && !run[i].pc.Done?
    requires run[i].pc == Acquire ==> run[i].available || c.timed
    ensures WaiterStep(c, run[i], t)
  {
    AlwaysSafe(c, run, i);
    var s := run[i];
    hide Safe;
    assert Fits(c, s) by { OwnNotifiersFit(c, s); }
    match s.pc
    case Register(k) =>
      t := if k < |c.queues| then
             s.(queues := s.queues[c.queues[k] := WithNotifier(Q(c, s, k))], ids := s.ids + [Q(c, s, k).nextId],
             pc := Register(k + 1))
           else s.(pc := AllClosed(Initial, 0));
    case AllClosed(phase, k) =>
      t := s.(pc := if k >= |c.queues| then Message(Final, 0, IsClosed)
              else if Q(c, s, k).open then Message(phase, 0, IsClosed) else AllClosed(phase, k + 1));
    case Message(phase, k, access) =>
      t := s.(pc := if k >= |c.queues| then AfterNone(phase)
              else match access
                case IsClosed => if Q(c, s, k).open then Message(phase, k, IsDestroyed)
                    else Message(phase, k + 1, IsClosed)
                case IsDestroyed => if Q(c, s, k).open then Message(phase, k, IsEmpty) else AfterThrow(phase)
                case IsEmpty => if Q(c, s, k).messages > 0 then AfterFound(phase) else Message(phase, k + 1, IsClosed));
    case Acquire =>
      t := if s.available then s.(available := false, pc := AllClosed(Waiting, 0))
           else s.(pc := AllClosed(TimedOut, 0));
    case Remove(k, outcome) =>
      t := if k < |c.queues| && k < |s.ids| then
             s.(queues := s.queues[c.queues[k] := WithoutNotifier(Q(c, s, k), s.ids[k])], pc := Remove(k + 1, outcome))
           else s.(pc := Done(outcome));
  }

  // ----- when the answer false can be trusted -----

  /** No deadline passed. */
  predicate InTime(run: seq<State>) {
    forall i | 0 <= i < |run| :: run[i].pc != AllClosed(TimedOut, 0)
  }

  ghost predicate AllAreClosed(c: Call, s: State)
    requires Fits(c, s)
  {
    forall j | 0 <= j < |c.queues| :: !Q(c, s, j).open
  }

  /** A run that ends in time with the answer false. */
  ghost predicate AnswersFalse(c: Call, run: seq<State>) {
    run != [] && Run(c, run) && InTime(run) && run[|run| - 1].pc == Done(Returned(false)) && Fits(c, run[|run| - 1])
  }

  /** What the documentation says of the answer false: all queues are closed, or
      the timeout expired first. */
  ghost predicate FalseMeansAllClosed(c: Call) {
    forall run | AnswersFalse(c, run) :: AllAreClosed(c, run[|run| - 1])
  }

  /** All the queues waited on are one. */
  predicate OneQueue(c: Call) {
    forall j | 0 <= j < |c.queues| :: c.queues[j] == c.queues[0]
  }

  /** The answer false means what the documentation says exactly for a call on no
      queue, or on a single one of which nobody else takes or drops messages. */
  lemma FalseMeansAllClosedExactly(c: Call)
    ensures FalseMeansAllClosed(c) <==> c.queues == [] || (OneQueue(c) && Undisturbed(c))
  {
    hide Run, InTime;
    if c.queues == [] || (OneQueue(c) && Undisturbed(c)) {
      forall run | AnswersFalse(c, run)
        ensures AllAreClosed(c, run[|run| - 1])
      {
        LastIsClosed(c, run);
      }
    } else {
      var run := OpenRun(c);
      assert AnswersFalse(c, run);
    }
  }

  lemma LastIsClosed(c: Call, run: seq<State>)
    requires AnswersFalse(c, run) && (c.queues == [] || (OneQueue(c) && Undisturbed(c)))
    ensures AllAreClosed(c, run[|run| - 1])
  {
    WithoutTimeout(c, run);
    hide Run, InTime;
    if c.queues != [] {
      OutcomeTellsOfClosing(c.(timed := false), run, |run| - 1);
    }
  }

  /** A run in time is one of the call without the timeout. */
  lemma WithoutTimeout(c: Call, run: seq<State>)
    requires Run(c, run) && InTime(run)
    ensures Run(c.(timed := false), run)
  {
    var patient := c.(timed := false);
    assert Starts(patient, run[0]);
    forall i, j | 0 <= i && j == i + 1 < |run|
      ensures Step(patient, run[i], run[j])
    {
      assert Step(c, run[i], run[j]) && run[j].pc != AllClosed(TimedOut, 0);
      StepWithoutTimeout(c, run[i], run[j]);
    }
  }

  lemma StepWithoutTimeout(c: Call, s: State, t: State)
    requires Step(c, s, t) && t.pc != AllClosed(TimedOut, 0)
    ensures Step(c.(timed := false), s, t)
  {
    var patient := c.(timed := false);
    if WaiterStep(c, s, t) {
      assert WaiterStep(patient, s, t);
    } else {
      var e :| Possible(c, s, e) && t == After(s, e);
      assert Possible(patient, s, e);
    }
  }

  // ----- false although a queue is open -----

  /** `run` leads to `s`, if `inTime` before a deadline passed. */
  ghost predicate Reached(c: Call, run: seq<State>, s: State, inTime: bool) {
    run != [] && Run(c, run) && (inTime ==> InTime(run)) && run[|run| - 1] == s
  }

  /** The waiter takes one step by itself. */
  lemma Waits(c: Call, run: seq<State>, s: State, t: State, inTime: bool) returns (longer: seq<State>)
    requires Reached(c, run, s, inTime) && WaiterStep(c, s, t) && (inTime ==> t.pc != AllClosed(TimedOut, 0))
    ensures Reached(c, longer, t, inTime)
  {
    hide WaiterStep, Starts;
    longer := run + [t];
  }

  lemma Happens(c: Call, run: seq<State>, s: State, e: Event, inTime: bool) returns (longer: seq<State>)
    requires Reached(c, run, s, inTime) && Possible(c, s, e)
    ensures Reached(c, longer, After(s, e), inTime)
  {
    hide WaiterStep, Starts, QueueAfter;
    longer := run + [After(s, e)];
  }

  /** Every queue is open and empty, and nobody has notified. */
  predicate AllIdle(s: State) {
    !s.available && forall q | 0 <= q < |s.queues| :: s.queues[q].open && s.queues[q].messages == 0
  }

  lemma {:induction false} RegistersAll(c: Call, run: seq<State>, s: State, inTime: bool)
      returns (longer: seq<State>, t: State)
    requires Reached(c, run, s, inTime) && Fits(c, s) && s.pc.Register? && s.pc.k <= |c.queues| && AllIdle(s)
    ensures Reached(c, longer, t, inTime) && Fits(c, t) && t.pc == AllClosed(Initial, 0) && AllIdle(t)
    decreases |c.queues| - s.pc.k
  {
    hide Reached;
    var k := s.pc.k;
    if k < |c.queues| {
      var next := s.(queues := s.queues[c.queues[k] := WithNotifier(Q(c, s, k))], ids := s.ids + [Q(c, s, k).nextId],
          pc := Register(k + 1));
      longer := Waits(c, run, s, next, inTime);
      longer, t := RegistersAll(c, longer, next, inTime);
    } else {
      t := s.(pc := AllClosed(Initial, 0));
      longer := Waits(c, run, s, t, inTime);
    }
  }

  /** In the final check every queue is closed or empty. */
  ghost predicate NothingToSee(c: Call, s: State)
    requires Fits(c, s)
  {
    forall j | 0 <= j < |c.queues| :: !Q(c, s, j).open || Q(c, s, j).messages == 0
  }

  lemma {:induction false} SeesNothing(c: Call, run: seq<State>, s: State, phase: Phase, k: nat, inTime: bool)
      returns (longer: seq<State>)
    requires Reached(c, run, s, inTime) && Fits(c, s) && s.pc == Message(phase, k, IsClosed) && k <= |c.queues|
    requires NothingToSee(c, s)
    ensures Reached(c, longer, s.(pc := AfterNone(phase)), inTime)
    decreases |c.queues| - k
  {
    hide Reached;
    var next := s.(pc := Message(phase, k + 1, IsClosed));
    assert forall j | 0 <= j < |c.queues| :: Q(c, next, j) == Q(c, s, j);
    if k == |c.queues| {
      longer := Waits(c, run, s, s.(pc := AfterNone(phase)), inTime);
    } else if Q(c, s, k).open {
      longer := Waits(c, run, s, s.(pc := Message(phase, k, IsDestroyed)), inTime);
      var looking := s.(pc := Message(phase, k, IsDestroyed));
      longer := Waits(c, longer, looking, s.(pc := Message(phase, k, IsEmpty)), inTime);
      longer := Waits(c, longer, s.(pc := Message(phase, k, IsEmpty)), next, inTime);
      longer := SeesNothing(c, longer, next, phase, k + 1, inTime);
    } else {
      longer := Waits(c, run, s, next, inTime);
      longer := SeesNothing(c, longer, next, phase, k + 1, inTime);
    }
  }

  predicate SameContents(s: State, t: State) {
    && |s.queues| == |t.queues|
    && forall q | 0 <= q < |s.queues| ::
         s.queues[q].open == t.queues[q].open && s.queues[q].messages == t.queues[q].messages
  }

  lemma {:induction false} RemovesAll(c: Call, run: seq<State>, s: State, inTime: bool)
      returns (longer: seq<State>, t: State)
    requires Reached(c, run, s, inTime) && Fits(c, s) && s.pc.Remove? && s.pc.k <= |c.queues|
    ensures Reached(c, longer, t, inTime) && t.pc == Done(s.pc.outcome) && SameContents(s, t)
    decreases |c.queues| - s.pc.k
  {
    hide Reached;
    var k := s.pc.k;
    if k < |c.queues| && k < |s.ids| {
      var next := s.(queues := s.queues[c.queues[k] := WithoutNotifier(Q(c, s, k), s.ids[k])],
          pc := Remove(k + 1, s.pc.outcome));
      longer := Waits(c, run, s, next, inTime);
      longer, t := RemovesAll(c, longer, next, inTime);
    } else {
      t := s.(pc := Done(s.pc.outcome));
      longer := Waits(c, run, s, t, inTime);
    }
  }

  /** Registers on idle queues and finds a message in the first one. */
  lemma StartsIdle(c: Call, inTime: bool) returns (run: seq<State>, s: State)
    ensures Reached(c, run, s, inTime) && Fits(c, s) && s.pc == AllClosed(Initial, 0) && AllIdle(s)
  {
    var n := Bound(c.queues);
    s := State(seq(n, _ => Queue(true, 0, 0, map[], 0)), false, [], Register(0));
    run := [s];
    assert Reached(c, run, s, inTime);
    hide Reached;
    run, s := RegistersAll(c, run, s, inTime);
  }

  /** Registers on idle queues and finds a message in the first one. */
  lemma FindsMessage(c: Call) returns (run: seq<State>, s: State)
    requires c.queues != []
    ensures Reached(c, run, s, true) && Fits(c, s) && s.pc == Message(Final, 0, IsClosed) && Q(c, s, 0).messages > 0
    ensures forall q | 0 <= q < |s.queues| :: s.queues[q].open && (q != c.queues[0] ==> s.queues[q].messages == 0)
  {
    hide Reached;
    run, s := StartsIdle(c, true);
    run := Waits(c, run, s, s.(pc := Message(Initial, 0, IsClosed)), true);
    s := s.(pc := Message(Initial, 0, IsClosed));
    run := Waits(c, run, s, s.(pc := Message(Initial, 0, IsDestroyed)), true);
    s := s.(pc := Message(Initial, 0, IsDestroyed));
    run := Waits(c, run, s, s.(pc := Message(Initial, 0, IsEmpty)), true);
    s := s.(pc := Message(Initial, 0, IsEmpty));
    run := Happens(c, run, s, Push(c.queues[0], 1), true);
    s := After(s, Push(c.queues[0], 1));
    run := Waits(c, run, s, s.(pc := Message(Final, 0, IsClosed)), true);
    s := s.(pc := Message(Final, 0, IsClosed));
  }

  /** One round over idle queues finds nothing. */
  lemma LooksAround(c: Call, run: seq<State>, s: State, phase: Phase) returns (longer: seq<State>)
    requires Reached(c, run, s, false) && Fits(c, s) && c.queues != [] && AllIdle(s) && s.pc == AllClosed(phase, 0)
    ensures Reached(c, longer, s.(pc := AfterNone(phase)), false)
  {
    hide Reached;
    assert Q(c, s, 0).open;
    longer := Waits(c, run, s, s.(pc := Message(phase, 0, IsClosed)), false);
    longer := SeesNothing(c, longer, s.(pc := Message(phase, 0, IsClosed)), phase, 0, false);
  }

  /** With a timeout, a call on queues that stay open and empty can come to an
      end: the deadline passes, and the answer is false. */
  lemma DeadlineAnswersFalse(c: Call) returns (run: seq<State>, t: State)
    requires c.queues != [] && c.timed
    ensures run != [] && Run(c, run) && run[|run| - 1] == t && t.pc == Done(Returned(false))
    ensures forall q | 0 <= q < |t.queues| :: t.queues[q].open && t.queues[q].messages == 0
  {
    var s;
    run, s := StartsIdle(c, false);
    run := LooksAround(c, run, s, Initial);
    run := LooksAround(c, run, s.(pc := AllClosed(Waiting, 0)), Waiting);
    s := s.(pc := Acquire);
    t := s.(pc := AllClosed(TimedOut, 0));
    run := Waits(c, run, s, t, false);
    run := LooksAround(c, run, t, TimedOut);
    s := s.(pc := Message(Final, 0, IsClosed));
    run := SeesNothing(c, run, s, Final, 0, false);
    run, t := RemovesAll(c, run, s.(pc := Remove(0, Returned(false))), false);
  }

  function Bound(queues: seq<nat>): (n: nat)
    ensures forall j | 0 <= j < |queues| :: queues[j] < n
  {
    if queues == [] then 0
    else
      var n := Bound(queues[..|queues| - 1]);
      if queues[|queues| - 1] < n then n else queues[|queues| - 1] + 1
  }

  /** A message ends the wait, and before the result is looked up its queue is
      closed, or someone else takes the message, or a send empties the queue: the
      answer is false although another queue, or the same one, is open. */
  lemma OpenRun(c: Call) returns (run: seq<State>)
    requires c.queues != [] && (!Undisturbed(c) || !OneQueue(c))
    ensures AnswersFalse(c, run) && !AllAreClosed(c, run[|run| - 1])
  {
    var s, other := State([], false, [], Register(0)), 0;
    run, s := FindsMessage(c);
    hide Run, InTime;
    var q := c.queues[0];
    var e := if c.consumers then Consume(q, 0) else if c.resizers then Push(q, 0) else Close(q);
    if Undisturbed(c) {
      other :| 0 <= other < |c.queues| && c.queues[other] != c.queues[0];
    }
    run := Happens(c, run, s, e, true);
    s := After(s, e);
    assert NothingToSee(c, s) && Q(c, s, other).open;
    run := SeesNothing(c, run, s, Final, 0, true);
    var t := s;
    run, t := RemovesAll(c, run, s.(pc := Remove(0, Returned(false))), true);
    assert Q(c, t, other).open;
  }

  /** Already two queues are too many for a call without timeout that nobody disturbs. */
  lemma FalseAlthoughOpen() returns (c: Call, run: seq<State>)
    ensures c == Call([0, 1], false, false, false)
    ensures AnswersFalse(c, run) && !AllAreClosed(c, run[|run| - 1])
  {
    c := Call([0, 1], false, false, false);
    assert c.queues[1] != c.queues[0];
    run := OpenRun(c);
  }

  /** For a single queue it is enough that a send may empty it. */
  lemma FalseAlthoughNothingClosed() returns (c: Call, run: seq<State>)
    ensures c == Call([0], false, false, true)
    ensures AnswersFalse(c, run) && !AllAreClosed(c, run[|run| - 1])
  {
    c := Call([0], false, false, true);
    run := OpenRun(c);
  }
}
