/** A message queue: the bounded queue behind it and the notifiers it wakes. What
    its methods do to the queue are the events and steps of `WaitAny`. */
module MessageQueue {
  import opened Optional
  import WaitAny

  // ----- the bounded queue -----

  /** What a full queue keeps to make room for one more: its newest messages. */
  function Newest<T>(q: seq<T>, n: nat): (r: seq<T>)
    ensures |r| == if |q| < n then |q| else n
  {
    if |q| <= n then q else q[|q| - n..]
  }

  /** The content of a queue that never blocks after one push. */
  function Pushed<T>(q: seq<T>, maxSize: nat, x: T): seq<T> {
    if maxSize == 0 then [] else Newest(q, maxSize - 1) + [x]
  }

  function PushedAll<T>(q: seq<T>, maxSize: nat, xs: seq<T>): seq<T> {
    if xs == [] then q else Pushed(PushedAll(q, maxSize, xs[..|xs| - 1]), maxSize, xs[|xs| - 1])
  }

  lemma OneMore<T>(xs: seq<T>, maxSize: nat, x: T)
    ensures Pushed(Newest(xs, maxSize), maxSize, x) == Newest(xs + [x], maxSize)
  {
    if maxSize > 0 {
      var kept := Newest(Newest(xs, maxSize), maxSize - 1);
      assert |kept + [x]| == |Newest(xs + [x], maxSize)|;
      assert forall k | 0 <= k < |kept| :: kept[k] == Newest(xs + [x], maxSize)[k];
    }
  }

  /** A queue that never blocks always holds the latest messages, in order. */
  lemma {:induction false} HoldsTheLatest<T>(maxSize: nat, xs: seq<T>)
    ensures PushedAll([], maxSize, xs) == Newest(xs, maxSize)
    ensures PushedAll([], maxSize, xs) == if |xs| <= maxSize then xs else xs[|xs| - maxSize..]
  {
    if xs != [] {
      var before, x := xs[..|xs| - 1], xs[|xs| - 1];
      HoldsTheLatest(maxSize, before);
      assert xs == before + [x];
      OneMore(before, maxSize, x);
    }
  }

  class LockingQueue<T> {
    var maxSize: nat
    var blocking: bool
    var queue: seq<T>
    var destructed: bool

    constructor (maxSize: nat, blocking: bool)
      ensures this.maxSize == maxSize && this.blocking == blocking && queue == [] && !destructed
    {
      this.maxSize, this.blocking := maxSize, blocking;
      this.queue, this.destructed := [], false;
    }

    method Destruct()
      modifies this`destructed
      ensures destructed
    {
      destructed := true;
    }

    /** A push has to wait for room. */
    predicate MustWait()
      reads this
    {
      blocking && !destructed && 0 < maxSize <= |queue|
    }

    /** `woken` and `wokenDestructed` are what others have made of the queue when
        a push that had to wait goes on. */
    method Push(data: T, woken: seq<T>, wokenDestructed: bool) returns (accepted: bool)
      requires MustWait() ==> |woken| < maxSize || wokenDestructed
      modifies this`queue, this`destructed
      ensures destructed == if old(MustWait()) then wokenDestructed else old(destructed)
      ensures accepted == !(blocking && destructed && maxSize > 0)
      ensures var met := if old(MustWait()) then woken else old(queue);
              queue == if accepted then Pushed(met, maxSize, data) else met
      ensures accepted && maxSize == 0 ==> queue == []
      ensures accepted && maxSize > 0 ==>
                var met := if old(MustWait()) then woken else old(queue);
                queue == (if |met| < maxSize then met else met[|met| - (maxSize - 1)..]) + [data]
    {
      if maxSize == 0 {
        while queue != []
          invariant destructed == old(destructed)
          decreases |queue|
        {
          queue := queue[1..];
        }
        return true;
      }
      if !blocking {
        while |queue| >= maxSize
          invariant destructed == old(destructed)
          invariant queue == Newest(old(queue), |queue|) && |queue| <= |old(queue)|
          invariant |old(queue)| >= maxSize ==> |queue| >= maxSize - 1
          invariant |old(queue)| < maxSize ==> queue == old(queue)
          decreases |queue|
        {
          queue := queue[1..];
        }
      } else {
        if |queue| >= maxSize && !destructed {
          queue, destructed := woken, wokenDestructed;
        }
        if destructed {
          return false;
        }
      }
      queue := queue + [data];
      return true;
    }

    method TryPop() returns (value: Option<T>)
      modifies this`queue
      ensures value == if old(queue) == [] then None else Some(old(queue)[0])
      ensures queue == if old(queue) == [] then [] else old(queue)[1..]
    {
      if queue == [] { return None; }
      value := Some(queue[0]);
      queue := queue[1..];
    }
  }

  // ----- notifiers -----

  class BinarySemaphore {
    var available: bool

    constructor ()
      ensures !available
    {
      available := false;
    }

    method Release()
      modifies this
      ensures available
    {
      available := true;
    }
  }

  class WaitAnyNotifier {
    const semaphore: BinarySemaphore
    ghost const number: int  // tells the waiters apart, as in `WaitAny`

    constructor (ghost number: int)
      ensures fresh(semaphore) && !semaphore.available && this.number == number
    {
      semaphore := new BinarySemaphore();
      this.number := number;
    }

    method NotifyOne()
      modifies semaphore
      ensures semaphore.available
    {
      semaphore.Release();
    }
  }

  // ----- the message queue -----

  lemma EmptyWithoutMembers(s: set<int>)
    ensures (forall id :: id !in s) ==> s == {}
  {
    if forall id :: id !in s {
      assert s == {};
    }
  }

  datatype Failure = InvalidArgument | QueueClosed

  class MessageQueue<T> {
    const queue: LockingQueue<T>
    var notifiers: map<int, WaitAnyNotifier>
    var uniqueNotifierId: int

    /** Ids are handed out in order, so that none is used twice. */
    ghost predicate Valid()
      reads this
    {
      forall id | id in notifiers :: id < uniqueNotifierId
    }

    ghost function Semaphores(): set<BinarySemaphore>
      reads this
    {
      set id | id in notifiers :: notifiers[id].semaphore
    }

    /** The queue as `WaitAny` sees it, with notifications still to come. */
    ghost function View(pending: nat): WaitAny.Queue
      reads this, queue
    {
      var numbers := map id | id in notifiers :: notifiers[id].number;
      WaitAny.Queue(!queue.destructed, |queue.queue|, pending, numbers, uniqueNotifierId)
    }

    /** The notifier of the waiter that `WaitAny` follows. */
    ghost predicate Follows(mine: WaitAnyNotifier)
      reads this
    {
      && mine.number == WaitAny.ME
      && forall id | id in notifiers ::
           && (notifiers[id].number == WaitAny.ME <==> notifiers[id] == mine)
           && (notifiers[id] != mine ==> notifiers[id].semaphore != mine.semaphore)
    }

    constructor (maxSize: nat, blocking: bool)
      ensures Valid() && notifiers == map[] && fresh(queue) && queue.queue == [] && queue.maxSize == maxSize
      ensures queue.blocking == blocking
    {
      queue := new LockingQueue(maxSize, blocking);
      notifiers, uniqueNotifierId := map[], 0;
    }

    method AddNotifier(notifier: WaitAnyNotifier) returns (id: int)
      requires Valid()
      modifies this`notifiers, this`uniqueNotifierId
      ensures Valid() && id !in old(notifiers) && notifiers == old(notifiers)[id := notifier]
      ensures forall pending :: View(pending) ==
                                if notifier.number == WaitAny.ME then WaitAny.WithNotifier(old(View(pending)))
                                else WaitAny.QueueAfter(old(View(pending)), WaitAny.OtherRegisters(0, notifier.number))
    {
      id := uniqueNotifierId;
      uniqueNotifierId := uniqueNotifierId + 1;
      notifiers := notifiers[id := notifier];
    }

    method RemoveNotifier(id: int) returns (removed: bool)
      requires Valid()
      modifies this`notifiers
      ensures Valid() && removed == (id in old(notifiers)) && notifiers == old(notifiers) - {id}
      ensures forall pending :: View(pending) == WaitAny.WithoutNotifier(old(View(pending)), id)
    {
      if id !in notifiers {
        assert notifiers - {id} == notifiers;
        return false;
      }
      notifiers := notifiers - {id};
      return true;
    }

    /** Wakes whoever is registered, and no one else. */
    method NotifyListeners()
      modifies Semaphores()
      ensures forall id | id in notifiers :: notifiers[id].semaphore.available
      ensures forall mine: WaitAnyNotifier | old(allocated(mine)) && Follows(mine) ::
                mine.semaphore.available == (old(mine.semaphore.available) || WaitAny.Registered(View(0)))
      ensures forall pending: nat :: View(pending) == WaitAny.QueueAfter(old(View(pending + 1)), WaitAny.Notify(0))
    {
      var todo: set<int> := notifiers.Keys;
      while todo != {}
        invariant todo <= notifiers.Keys && notifiers == old(notifiers)
        invariant forall id | id in notifiers && id !in todo :: notifiers[id].semaphore.available
        decreases |todo|
      {
        EmptyWithoutMembers(todo);
        var id :| id in todo;
        notifiers[id].NotifyOne();
        todo := todo - {id};
      }
      forall mine: WaitAnyNotifier | old(allocated(mine)) && Follows(mine)
        ensures mine.semaphore.available == (old(mine.semaphore.available) || WaitAny.Registered(View(0)))
      {
        ReleasedWith(mine);
      }
    }

    /** The followed notifier is registered exactly if its semaphore is among those
        that a notification releases. */
    lemma ReleasedWith(mine: WaitAnyNotifier)
      requires Follows(mine)
      ensures WaitAny.Registered(View(0)) <==> mine.semaphore in Semaphores()
      ensures mine.semaphore in Semaphores() ==> exists id :: id in notifiers && notifiers[id] == mine
    {
      if id :| id in notifiers && notifiers[id] == mine {
        assert View(0).notifiers[id] == WaitAny.ME;
      }
    }

    /** Closes the queue and then notifies. */
    method Close()
      modifies queue`destructed, Semaphores()
      ensures queue.destructed && forall id | id in notifiers :: notifiers[id].semaphore.available
      ensures forall pending ::
                View(pending) == WaitAny.QueueAfter(WaitAny.QueueAfter(old(View(pending)), WaitAny.Close(0)),
                                                    WaitAny.Notify(0))
    {
      queue.Destruct();
      NotifyListeners();
    }

    /** A null message and a closed queue are refused before anything happens;
        whatever comes of the push, everyone registered is woken. */
    method Send(msg: Option<T>, woken: seq<T>, wokenDestructed: bool) returns (failure: Option<Failure>)
      requires queue.MustWait() ==> |woken| < queue.maxSize || wokenDestructed
      modifies queue`queue, queue`destructed, Semaphores()
      ensures msg.None? ==> failure == Some(InvalidArgument)
      ensures msg.Some? ==> failure == if queue.destructed then Some(QueueClosed) else None
      ensures var refused := msg.None? || old(queue.destructed);
              && (refused ==> queue.destructed == old(queue.destructed) && queue.queue == old(queue.queue))
              && (refused ==> forall id | id in notifiers ::
                  notifiers[id].semaphore.available == old(notifiers[id].semaphore.available))
              && (!refused ==> forall id | id in notifiers :: notifiers[id].semaphore.available)
      ensures failure.None? ==>
                var met := if old(queue.MustWait()) then woken else old(queue.queue);
                queue.queue == Pushed(met, queue.maxSize, msg.value)
      ensures failure.None? && !old(queue.MustWait()) ==>
                forall pending ::
                  var pushed := WaitAny.QueueAfter(old(View(pending)), WaitAny.Push(0, |queue.queue|));
                  View(pending) == WaitAny.QueueAfter(pushed, WaitAny.Notify(0))
    {
      if msg.None? { return Some(InvalidArgument); }
      if queue.destructed { return Some(QueueClosed); }
      var queueNotClosed := queue.Push(msg.value, woken, wokenDestructed);
      NotifyListeners();
      if !queueNotClosed { return Some(QueueClosed); }
      return None;
    }

    /** Takes the oldest message, if there is one. */
    method TryGet() returns (failure: Option<Failure>, msg: Option<T>)
      modifies queue`queue
      ensures failure == (if queue.destructed then Some(QueueClosed) else None)
      ensures msg == if failure.Some? || old(queue.queue) == [] then None else Some(old(queue.queue)[0])
      ensures queue.queue == if msg.None? then old(queue.queue) else old(queue.queue)[1..]
      ensures msg.Some? ==>
                forall pending ::
                  View(pending) == WaitAny.QueueAfter(old(View(pending)), WaitAny.Consume(0, |queue.queue|))
    {
      if queue.destructed { return Some(QueueClosed), None; }
      failure := None;
      msg := queue.TryPop();
    }
  }
}
