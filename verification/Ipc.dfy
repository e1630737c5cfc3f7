/** Named message ports: what every run of port operations, by any processes in any order, delivers
    (kernel/src/ipc.rs). */
module Ipc {
  import opened Options
  import opened Bytes

  const MAX_NAME: nat := 64
  const MAX_MESSAGE: nat := 4096
  const QUEUE_DEPTH: nat := 32
  const MAX_PORTS: nat := 128

  type Name = seq<Byte>

  /** A message, with the sender as the kernel knows it. */
  datatype Message = Message(from: nat, bytes: seq<Byte>)

  datatype Port = Port(handle: nat, name: Name, owner: nat, queue: seq<Message>, dropped: nat)

  datatype IpcError = BadName | NameTaken | NotFound | BadHandle | TooLarge | WouldBlock | Exhausted

  datatype Reply = Handle(handle: nat) | Sent(length: nat) | Received(message: Message) | Closed | Failed(error: IpcError)

  datatype Op =
    | Create(owner: nat, name: Name)
    | Connect(name: Name)
    | Send(from: nat, to: nat, bytes: seq<Byte>)
    | Recv(receiver: nat, at: nat)
    | Close(owner: nat, at: nat)
    | CloseAllFor(owner: nat)

  datatype State = State(ports: map<nat, Port>, nextHandle: nat)

  const Empty: State := State(map[], 1)

  predicate NameIsValid(name: Name) {
    name != [] && |name| <= MAX_NAME && 0 !in name && forall i | 0 <= i < |name| :: 0x21 <= name[i] <= 0x7e
  }

  predicate Taken(s: State, name: Name) {
    exists h :: h in s.ports && s.ports[h].name == name
  }

  // --- One operation ------------------------------------------------------------------------------

  ghost predicate CreateStep(s: State, owner: nat, name: Name, r: Reply, s': State) {
    if !NameIsValid(name) then r == Failed(BadName) && s' == s
    else if |s.ports| >= MAX_PORTS then r == Failed(Exhausted) && s' == s
    else if Taken(s, name) then r == Failed(NameTaken) && s' == s
    else
      && r == Handle(s.nextHandle)
      && s' == State(s.ports[s.nextHandle := Port(s.nextHandle, name, owner, [], 0)], s.nextHandle + 1)
  }

  ghost predicate ConnectStep(s: State, name: Name, r: Reply, s': State) {
    && s' == s
    && if !NameIsValid(name) then r == Failed(BadName)
       else if Taken(s, name) then r.Handle? && exists h :: h in s.ports && s.ports[h].name == name && s.ports[h].handle == r.handle
       else r == Failed(NotFound)
  }

  ghost predicate SendStep(s: State, from: nat, h: nat, bytes: seq<Byte>, r: Reply, s': State) {
    if |bytes| > MAX_MESSAGE then r == Failed(TooLarge) && s' == s
    else if h !in s.ports then r == Failed(BadHandle) && s' == s
    else
      var port := s.ports[h];
      if |port.queue| >= QUEUE_DEPTH
      then r == Failed(WouldBlock) && s' == s.(ports := s.ports[h := port.(dropped := port.dropped + 1)])
      else r == Sent(|bytes|) && s' == s.(ports := s.ports[h := port.(queue := port.queue + [Message(from, bytes)])])
  }

  ghost predicate RecvStep(s: State, receiver: nat, h: nat, r: Reply, s': State) {
    if h !in s.ports || s.ports[h].owner != receiver then r == Failed(BadHandle) && s' == s
    else
      var port := s.ports[h];
      if port.queue == [] then r == Failed(WouldBlock) && s' == s
      else r == Received(port.queue[0]) && s' == s.(ports := s.ports[h := port.(queue := port.queue[1..])])
  }

  ghost predicate CloseStep(s: State, owner: nat, h: nat, r: Reply, s': State) {
    if h in s.ports && s.ports[h].owner == owner
    then r == Closed && s' == s.(ports := s.ports - {h})
    else r == Failed(BadHandle) && s' == s
  }

  ghost function OwnedBy(s: State, owner: nat): set<nat> {
    set h | h in s.ports && s.ports[h].owner == owner
  }

  ghost predicate Step(s: State, op: Op, r: Reply, s': State) {
    match op
    case Create(owner, name) => CreateStep(s, owner, name, r, s')
    case Connect(name) => ConnectStep(s, name, r, s')
    case Send(from, to, bytes) => SendStep(s, from, to, bytes, r, s')
    case Recv(receiver, at) => RecvStep(s, receiver, at, r, s')
    case Close(owner, at) => CloseStep(s, owner, at, r, s')
    case CloseAllFor(owner) => r == Closed && s' == s.(ports := s.ports - OwnedBy(s, owner))
  }

  // --- Runs ---------------------------------------------------------------------------------------

  /** An operation, what it answered, and the ports after it. */
  datatype Event = Event(op: Op, reply: Reply, after: State)

  ghost function StateAfter(run: seq<Event>): State {
    if run == [] then Empty else run[|run| - 1].after
  }

  ghost predicate IsRun(run: seq<Event>) {
    forall k | 0 <= k < |run| :: Step(StateAfter(run[..k]), run[k].op, run[k].reply, run[k].after)
  }

  lemma RunPrefix(run: seq<Event>, n: nat)
    requires IsRun(run) && n <= |run|
    ensures IsRun(run[..n])
  {
    hide Step;
    forall k | 0 <= k < n ensures Step(StateAfter(run[..n][..k]), run[..n][k].op, run[..n][k].reply, run[..n][k].after) {
      assert run[..n][..k] == run[..k];
    }
  }

  lemma RunStep(run: seq<Event>)
    requires IsRun(run) && run != []
    ensures
      var last := run[|run| - 1];
      IsRun(run[..|run| - 1]) && Step(StateAfter(run[..|run| - 1]), last.op, last.reply, last.after) && last.after == StateAfter(run)
  {
    hide Step;
    RunPrefix(run, |run| - 1);
  }

  lemma RunGrows(run: seq<Event>, e: Event)
    requires IsRun(run) && Step(StateAfter(run), e.op, e.reply, e.after)
    ensures IsRun(run + [e]) && StateAfter(run + [e]) == e.after
  {
    hide Step;
    var longer := run + [e];
    forall k | 0 <= k < |longer| ensures Step(StateAfter(longer[..k]), longer[k].op, longer[k].reply, longer[k].after) {
      assert longer[..k] == run[..k];
      assert run[..|run|] == run;
    }
  }

  // --- What every step keeps ----------------------------------------------------------------------

  predicate GoodPort(h: nat, port: Port, nextHandle: nat) {
    && port.handle == h && h < nextHandle && NameIsValid(port.name) && |port.queue| <= QUEUE_DEPTH
    && (forall i | 0 <= i < |port.queue| :: |port.queue[i].bytes| <= MAX_MESSAGE)
  }

  predicate UniqueNames(ports: map<nat, Port>) {
    forall h, k | h in ports && k in ports && ports[h].name == ports[k].name :: h == k
  }

  ghost predicate Good(s: State) {
    && |s.ports| <= MAX_PORTS && UniqueNames(s.ports)
    && (forall h | h in s.ports :: GoodPort(h, s.ports[h], s.nextHandle))
  }

  lemma StepKeepsGood(s: State, op: Op, r: Reply, s': State)
    requires Good(s) && Step(s, op, r, s')
    ensures Good(s')
  {
    hide NameIsValid, Good;
    match op
    case Create(owner, name) =>
      if s' != s {
        CreateKeepsGood(s, owner, name);
      }
    case Connect(_) =>
    case Send(from, to, bytes) =>
      if s' != s {
        UpdateKeepsGood(s, to, s'.ports[to]);
      }
    case Recv(receiver, at) =>
      if s' != s {
        UpdateKeepsGood(s, at, s'.ports[at]);
      }
    case Close(owner, at) =>
      if s' != s {
        RemoveKeepsGood(s, {at});
      }
    case CloseAllFor(owner) =>
      RemoveKeepsGood(s, OwnedBy(s, owner));
  }

  lemma CreateKeepsGood(s: State, owner: nat, name: Name)
    requires Good(s) && NameIsValid(name) && |s.ports| < MAX_PORTS && !Taken(s, name)
    ensures Good(State(s.ports[s.nextHandle := Port(s.nextHandle, name, owner, [], 0)], s.nextHandle + 1))
  {
    hide NameIsValid;
    var h := s.nextHandle;
    var ports := s.ports[h := Port(h, name, owner, [], 0)];
    assert ports.Keys == s.ports.Keys + {h};
  }

  /** A port may change in what waits and how much was refused, within bounds. */
  lemma UpdateKeepsGood(s: State, h: nat, port: Port)
    requires Good(s) && h in s.ports && port.name == s.ports[h].name && port.handle == s.ports[h].handle
    requires port.queue == s.ports[h].queue
             || (s.ports[h].queue != [] && port.queue == s.ports[h].queue[1..])
             || (|s.ports[h].queue| < QUEUE_DEPTH && exists m: Message :: |m.bytes| <= MAX_MESSAGE && port.queue == s.ports[h].queue + [m])
    ensures Good(s.(ports := s.ports[h := port]))
  {
    hide NameIsValid;
    var ports := s.ports[h := port];
    assert ports.Keys == s.ports.Keys;
    assert GoodPort(h, port, s.nextHandle);
    SameNames(s.ports, ports);
    hide UniqueNames, GoodPort;
  }

  lemma SameNames(ports: map<nat, Port>, ports': map<nat, Port>)
    requires UniqueNames(ports) && ports'.Keys == ports.Keys && forall h | h in ports :: ports'[h].name == ports[h].name
    ensures UniqueNames(ports')
  {
  }

  lemma RemoveKeepsGood(s: State, gone: set<nat>)
    requires Good(s)
    ensures Good(s.(ports := s.ports - gone))
  {
    hide NameIsValid, GoodPort;
    Fewer(s.ports.Keys, (s.ports - gone).Keys);
  }

  lemma Fewer(all: set<nat>, some: set<nat>)
    requires some <= all
    ensures |some| <= |all|
  {
    assert all == some + (all - some);
  }

  /** Names are unique, queues bounded, and handles come from the counter, in every reachable state. */
  lemma {:induction false} ReachableIsGood(run: seq<Event>)
    requires IsRun(run)
    ensures Good(StateAfter(run))
    decreases |run|
  {
    if run != [] {
      RunStep(run);
      ReachableIsGood(run[..|run| - 1]);
      var last := run[|run| - 1];
      StepKeepsGood(StateAfter(run[..|run| - 1]), last.op, last.reply, last.after);
    }
  }

  function AcceptedNow(op: Op, r: Reply, h: nat): seq<Message> {
    if op.Send? && op.to == h && r.Sent? then [Message(op.from, op.bytes)] else []
  }

  function DeliveredNow(op: Op, r: Reply, h: nat): seq<Message> {
    if op.Recv? && op.at == h && r.Received? then [r.message] else []
  }

  /** What was accepted for a port: the sends that were answered with a length, in order. */
  ghost function AcceptedBy(run: seq<Event>, h: nat): seq<Message> {
    if run == [] then []
    else
      var last := run[|run| - 1];
      AcceptedBy(run[..|run| - 1], h) + AcceptedNow(last.op, last.reply, h)
  }

  /** What was handed out of a port: the answers to its receives, in order. */
  ghost function DeliveredBy(run: seq<Event>, h: nat): seq<Message> {
    if run == [] then []
    else
      var last := run[|run| - 1];
      DeliveredBy(run[..|run| - 1], h) + DeliveredNow(last.op, last.reply, h)
  }

  ghost predicate Balanced(run: seq<Event>, h: nat) {
    && (h in StateAfter(run).ports ==> DeliveredBy(run, h) + StateAfter(run).ports[h].queue == AcceptedBy(run, h))
    && DeliveredBy(run, h) <= AcceptedBy(run, h)
    && (h >= StateAfter(run).nextHandle ==> AcceptedBy(run, h) == DeliveredBy(run, h) == [])
  }

  /** One step's effect on what waits at a port. */
  lemma QueueStep(s: State, op: Op, r: Reply, s': State, h: nat)
    requires Good(s) && Step(s, op, r, s')
    ensures h in s.ports && h in s'.ports ==>
              s.ports[h].queue + AcceptedNow(op, r, h) == DeliveredNow(op, r, h) + s'.ports[h].queue
    ensures h !in s.ports ==> AcceptedNow(op, r, h) == DeliveredNow(op, r, h) == []
    ensures h !in s.ports && h in s'.ports ==> h == s.nextHandle && s'.ports[h].queue == []
    ensures h !in s'.ports ==> AcceptedNow(op, r, h) == DeliveredNow(op, r, h) == []
    ensures s.nextHandle <= s'.nextHandle && (h in s.ports ==> h < s.nextHandle)
  {
    hide NameIsValid, UniqueNames;
  }

  lemma BalancedStep(run: seq<Event>, h: nat)
    requires IsRun(run) && run != [] && Balanced(run[..|run| - 1], h) && Good(StateAfter(run[..|run| - 1]))
    ensures Balanced(run, h)
  {
    hide Step, Good, IsRun;
    RunStep(run);
    var before, last := run[..|run| - 1], run[|run| - 1];
    var s, s' := StateAfter(before), StateAfter(run);
    QueueStep(s, last.op, last.reply, s', h);
    var accepted, delivered := AcceptedNow(last.op, last.reply, h), DeliveredNow(last.op, last.reply, h);
    assert AcceptedBy(run, h) == AcceptedBy(before, h) + accepted;
    assert DeliveredBy(run, h) == DeliveredBy(before, h) + delivered;
    if h in s.ports && h in s'.ports {
      Rebalanced(DeliveredBy(before, h), s.ports[h].queue, accepted, delivered, s'.ports[h].queue);
    }
  }

  lemma Rebalanced(done: seq<Message>, queue: seq<Message>, accepted: seq<Message>, delivered: seq<Message>, queue': seq<Message>)
    requires queue + accepted == delivered + queue'
    ensures (done + delivered) + queue' == (done + queue) + accepted
  {
    assert (done + delivered) + queue' == done + (delivered + queue');
    assert (done + queue) + accepted == done + (queue + accepted);
  }

  /** Exactly once and in order: what a port's owner has received, followed by what still waits, is
      what was accepted for it; and nothing else is ever delivered, even after the port is gone. */
  lemma {:induction false} ExactlyOnceInOrder(run: seq<Event>, h: nat)
    requires IsRun(run)
    ensures Balanced(run, h)
    decreases |run|
  {
    if run != [] {
      RunPrefix(run, |run| - 1);
      ExactlyOnceInOrder(run[..|run| - 1], h);
      ReachableIsGood(run[..|run| - 1]);
      BalancedStep(run, h);
    }
  }

  // --- Handles ------------------------------------------------------------------------------------

  lemma {:induction false} CounterGrows(run: seq<Event>, n: nat)
    requires IsRun(run) && n <= |run|
    ensures StateAfter(run[..n]).nextHandle <= StateAfter(run).nextHandle
    decreases |run|
  {
    if n < |run| {
      var before := run[..|run| - 1];
      RunStep(run);
      CounterGrows(before, n);
      assert before[..n] == run[..n];
    } else {
      assert run[..n] == run;
    }
  }

  ghost predicate CreatesAt(run: seq<Event>, i: nat, h: nat) {
    i < |run| && run[i].op.Create? && run[i].reply == Handle(h)
  }

  /** No handle is given out twice, closed or not. */
  lemma HandlesAreNeverReused(run: seq<Event>, i: nat, j: nat, h: nat)
    requires IsRun(run) && CreatesAt(run, i, h) && CreatesAt(run, j, h)
    ensures i == j
  {
    if i < j {
      EarlierCreation(run, i, j);
    } else if j < i {
      EarlierCreation(run, j, i);
    }
  }

  lemma EarlierCreation(run: seq<Event>, i: nat, j: nat)
    requires IsRun(run) && i < j < |run|
    requires run[i].op.Create? && run[i].reply.Handle? && run[j].op.Create? && run[j].reply.Handle?
    ensures run[i].reply.handle < run[j].reply.handle
  {
    assert Step(StateAfter(run[..i]), run[i].op, run[i].reply, run[i].after);
    assert Step(StateAfter(run[..j]), run[j].op, run[j].reply, run[j].after);
    RunPrefix(run, j);
    CounterGrows(run[..j], i + 1);
    assert run[..j][..i + 1] == run[..i + 1];
    assert StateAfter(run[..i + 1]) == run[i].after;
  }

  lemma DeadStep(s: State, op: Op, r: Reply, s': State, h: nat)
    requires Good(s) && Step(s, op, r, s') && h < s.nextHandle && h !in s.ports
    ensures h < s'.nextHandle && h !in s'.ports
    ensures op.Send? && op.to == h ==> r.Failed?
    ensures op.Recv? && op.at == h ==> r == Failed(BadHandle)
  {
    hide NameIsValid;
  }

  /** A port that is gone stays gone: its handle never works again. */
  lemma {:induction false} ClosedForGood(run: seq<Event>, n: nat, h: nat)
    requires IsRun(run) && n <= |run|
    requires h < StateAfter(run[..n]).nextHandle && h !in StateAfter(run[..n]).ports
    ensures h < StateAfter(run).nextHandle && h !in StateAfter(run).ports
    ensures DeliveredBy(run, h) == DeliveredBy(run[..n], h) && AcceptedBy(run, h) == AcceptedBy(run[..n], h)
    decreases |run|
  {
    if n < |run| {
      var before, last := run[..|run| - 1], run[|run| - 1];
      RunStep(run);
      assert before[..n] == run[..n];
      ClosedForGood(before, n, h);
      ReachableIsGood(before);
      DeadStep(StateAfter(before), last.op, last.reply, last.after, h);
    } else {
      assert run[..n] == run;
    }
  }

  lemma OwnerStep(s: State, op: Op, r: Reply, s': State, h: nat)
    requires Good(s) && Step(s, op, r, s') && h in s.ports && h in s'.ports
    ensures s'.ports[h].owner == s.ports[h].owner && s'.ports[h].name == s.ports[h].name
  {
    hide NameIsValid;
  }

  /** Only the process that created a port ever receives from it. */
  lemma {:induction false} OwnerIsCreator(run: seq<Event>, i: nat, h: nat)
    requires IsRun(run) && CreatesAt(run, i, h) && h in StateAfter(run).ports
    ensures StateAfter(run).ports[h].owner == run[i].op.owner && StateAfter(run).ports[h].name == run[i].op.name
    decreases |run|
  {
    var before, last := run[..|run| - 1], run[|run| - 1];
    RunStep(run);
    if i == |run| - 1 {
      assert Step(StateAfter(before), last.op, last.reply, last.after);
    } else {
      assert CreatesAt(before, i, h);
      ReachableIsGood(before);
      if h !in StateAfter(before).ports {
        CreatedBelow(before, i, h);
        DeadStep(StateAfter(before), last.op, last.reply, last.after, h);
      } else {
        OwnerIsCreator(before, i, h);
        OwnerStep(StateAfter(before), last.op, last.reply, last.after, h);
      }
    }
  }

  lemma CreatedBelow(run: seq<Event>, i: nat, h: nat)
    requires IsRun(run) && CreatesAt(run, i, h)
    ensures h < StateAfter(run).nextHandle
  {
    assert Step(StateAfter(run[..i]), run[i].op, run[i].reply, run[i].after);
    CounterGrows(run, i + 1);
    assert StateAfter(run[..i + 1]) == run[i].after;
  }

  lemma ReceiverIsCreator(run: seq<Event>, i: nat, k: nat, h: nat)
    requires IsRun(run) && CreatesAt(run, i, h) && k < |run|
    requires run[k].op.Recv? && run[k].op.at == h && run[k].reply.Received?
    ensures i < k && run[k].op.receiver == run[i].op.owner
  {
    var s := StateAfter(run[..k]);
    assert Step(s, run[k].op, run[k].reply, run[k].after);
    RunPrefix(run, k);
    ReachableIsGood(run[..k]);
    if k <= i {
      NotYetThere(run, i, k, h);
    }
    assert CreatesAt(run[..k], i, h);
    OwnerIsCreator(run[..k], i, h);
  }

  lemma NotYetThere(run: seq<Event>, i: nat, k: nat, h: nat)
    requires IsRun(run) && CreatesAt(run, i, h) && k <= i
    ensures h !in StateAfter(run[..k]).ports
  {
    hide NameIsValid, UniqueNames;
    assert Step(StateAfter(run[..i]), run[i].op, run[i].reply, run[i].after);
    RunPrefix(run, i);
    CounterGrows(run[..i], k);
    assert run[..i][..k] == run[..k];
    RunPrefix(run, k);
    ReachableIsGood(run[..k]);
  }

  // --- Who can end a port -----------------------------------------------------------------------------

  predicate Ends(op: Op, owner: nat, h: nat) {
    op == Close(owner, h) || op == CloseAllFor(owner)
  }

  /** A port goes exactly when its owner closes it or is cleaned up after. */
  lemma OnlyItsOwnerEndsIt(s: State, op: Op, r: Reply, s': State, h: nat)
    requires Good(s) && Step(s, op, r, s') && h in s.ports
    ensures h !in s'.ports <==> Ends(op, s.ports[h].owner, h)
    ensures op.Close? && op.at == h && op.owner != s.ports[h].owner ==> r == Failed(BadHandle) && s' == s
  {
    hide NameIsValid, UniqueNames;
  }

  /** Over every run: a port created lives until its creator closes it or exits, and no longer. */
  lemma {:induction false} LivesUntilItsCreatorEndsIt(run: seq<Event>, i: nat, h: nat)
    requires IsRun(run) && CreatesAt(run, i, h)
    ensures h in StateAfter(run).ports <==> forall k | i < k < |run| :: !Ends(run[k].op, run[i].op.owner, h)
    decreases |run|
  {
    hide Step, Good;
    var n := |run| - 1;
    var before, last := run[..n], run[n];
    RunStep(run);
    if i == n {
      CreatedThere(run, i, h);
    } else {
      assert CreatesAt(before, i, h);
      LivesUntilItsCreatorEndsIt(before, i, h);
      ReachableIsGood(before);
      if h in StateAfter(before).ports {
        OwnerIsCreator(before, i, h);
        OnlyItsOwnerEndsIt(StateAfter(before), last.op, last.reply, last.after, h);
        assert forall k | i < k < n :: before[k] == run[k];
      } else {
        CreatedBelow(before, i, h);
        DeadStep(StateAfter(before), last.op, last.reply, last.after, h);
        var k :| i < k < n && Ends(before[k].op, run[i].op.owner, h);
        assert Ends(run[k].op, run[i].op.owner, h);
      }
    }
  }

  lemma CreatedThere(run: seq<Event>, i: nat, h: nat)
    requires IsRun(run) && CreatesAt(run, i, h)
    ensures h in run[i].after.ports && run[i].after.ports[h].queue == []
  {
    assert Step(StateAfter(run[..i]), run[i].op, run[i].reply, run[i].after);
  }

  // --- The answers, in terms of the history -----------------------------------------------------------

  /** A send is answered by what was accepted and delivered before: too large, no such port, full, or
      accepted. */
  lemma SendIsAnswered(run: seq<Event>, k: nat)
    requires IsRun(run) && k < |run| && run[k].op.Send?
    ensures
      var before, h, r := run[..k], run[k].op.to, run[k].reply;
      var waiting := |AcceptedBy(before, h)| - |DeliveredBy(before, h)|;
      && (|run[k].op.bytes| > 4096 <==> r == Failed(TooLarge))
      && (|run[k].op.bytes| <= 4096 && h !in StateAfter(before).ports <==> r == Failed(BadHandle))
      && (|run[k].op.bytes| <= 4096 && h in StateAfter(before).ports && waiting >= 32 <==> r == Failed(WouldBlock))
      && (|run[k].op.bytes| <= 4096 && h in StateAfter(before).ports && waiting < 32 <==> r == Sent(|run[k].op.bytes|))
  {
    assert Step(StateAfter(run[..k]), run[k].op, run[k].reply, run[k].after);
    RunPrefix(run, k);
    ExactlyOnceInOrder(run[..k], run[k].op.to);
  }

  /** A receive by the creator of a live port is answered with the next message in order, or refused if
      there is none; anybody else is refused. */
  lemma ReceiveIsAnswered(run: seq<Event>, k: nat, i: nat)
    requires IsRun(run) && i < k < |run| && run[k].op.Recv? && CreatesAt(run, i, run[k].op.at)
    ensures
      var before, h, r := run[..k], run[k].op.at, run[k].reply;
      var mine := h in StateAfter(before).ports && run[k].op.receiver == run[i].op.owner;
      var done := |DeliveredBy(before, h)|;
      && done <= |AcceptedBy(before, h)|
      && (!mine <==> r == Failed(BadHandle))
      && (mine && done == |AcceptedBy(before, h)| <==> r == Failed(WouldBlock))
      && (mine && done < |AcceptedBy(before, h)| <==> r.Received?)
      && (r.Received? ==> r.message == AcceptedBy(before, h)[done])
  {
    var before, h := run[..k], run[k].op.at;
    assert Step(StateAfter(before), run[k].op, run[k].reply, run[k].after);
    RunPrefix(run, k);
    ExactlyOnceInOrder(before, h);
    assert CreatesAt(before, i, h);
    if h in StateAfter(before).ports {
      OwnerIsCreator(before, i, h);
    }
  }

  /** A creation is refused for its name's form, then for the number of ports, then for a live port of that
      name; otherwise a port is made. */
  lemma CreateIsAnswered(run: seq<Event>, k: nat)
    requires IsRun(run) && k < |run| && run[k].op.Create?
    ensures
      var s, name, r := StateAfter(run[..k]), run[k].op.name, run[k].reply;
      var formed := 1 <= |name| <= 64 && forall i | 0 <= i < |name| :: 0x21 <= name[i] <= 0x7e;
      && (!formed <==> r == Failed(BadName))
      && (formed && |s.ports| >= 128 <==> r == Failed(Exhausted))
      && (formed && |s.ports| < 128 && (exists h :: h in s.ports && s.ports[h].name == name) <==> r == Failed(NameTaken))
      && (formed && |s.ports| < 128 && (forall h :: h in s.ports ==> s.ports[h].name != name) <==> r.Handle?)
  {
    assert Step(StateAfter(run[..k]), run[k].op, run[k].reply, run[k].after);
  }

  /** Connecting answers with the one live port of that name, if there is one. */
  lemma ConnectIsAnswered(run: seq<Event>, k: nat, h: nat)
    requires IsRun(run) && k < |run| && run[k].op.Connect? && NameIsValid(run[k].op.name)
    ensures
      var s := StateAfter(run[..k]);
      && (run[k].reply == Handle(h) <==> h in s.ports && s.ports[h].name == run[k].op.name)
      && (!run[k].reply.Handle? ==> run[k].reply == Failed(NotFound))
  {
    hide NameIsValid;
    assert Step(StateAfter(run[..k]), run[k].op, run[k].reply, run[k].after);
    RunPrefix(run, k);
    ReachableIsGood(run[..k]);
  }

  /** How many sends a port has refused because it was full. */
  ghost function RefusedBy(run: seq<Event>, h: nat): nat {
    if run == [] then 0
    else
      var last := run[|run| - 1];
      RefusedBy(run[..|run| - 1], h) + if last.op.Send? && last.op.to == h && last.reply == Failed(WouldBlock) then 1 else 0
  }

  /** The count a port keeps of refused sends is true. */
  lemma {:induction false} RefusalsAreCounted(run: seq<Event>, h: nat)
    requires IsRun(run)
    ensures h in StateAfter(run).ports ==> StateAfter(run).ports[h].dropped == RefusedBy(run, h)
    ensures h >= StateAfter(run).nextHandle ==> RefusedBy(run, h) == 0
    decreases |run|
  {
    hide Step, Good, IsRun;
    if run != [] {
      var before, last := run[..|run| - 1], run[|run| - 1];
      RunStep(run);
      RefusalsAreCounted(before, h);
      ReachableIsGood(before);
      RefusedStep(StateAfter(before), last.op, last.reply, last.after, h);
    }
  }

  lemma RefusedStep(s: State, op: Op, r: Reply, s': State, h: nat)
    requires Good(s) && Step(s, op, r, s')
    ensures
      var refused := if op.Send? && op.to == h && r == Failed(WouldBlock) then 1 else 0;
      && (h in s'.ports ==> s'.ports[h].dropped == (if h in s.ports then s.ports[h].dropped else 0) + refused)
      && (h in s'.ports && h !in s.ports ==> h >= s.nextHandle)
      && (h >= s'.nextHandle ==> refused == 0) && s.nextHandle <= s'.nextHandle
  {
    hide NameIsValid, UniqueNames;
  }

  // --- The kernel's table ---------------------------------------------------------------------------

  class PortTable {
    var ports: map<nat, Port>
    var nextHandle: nat
    ghost var run: seq<Event>

    ghost predicate Valid()
      reads this
    {
      IsRun(run) && StateAfter(run) == State(ports, nextHandle)
    }

    constructor ()
      ensures Valid() && run == []
    {
      ports, nextHandle, run := map[], 1, [];
    }

    method CreatePort(owner: nat, name: Name) returns (r: Reply)
      requires Valid()
      modifies this
      ensures Valid() && run == old(run) + [Event(Create(owner, name), r, State(ports, nextHandle))]
    {
      hide NameIsValid, IsRun;
      if !NameIsValid(name) {
        r := Failed(BadName);
      } else if |ports| >= MAX_PORTS {
        r := Failed(Exhausted);
      } else {
        var holder := FindName(name);
        if holder.Some? {
          r := Failed(NameTaken);
        } else {
          var handle := nextHandle;
          nextHandle := nextHandle + 1;
          ports := ports[handle := Port(handle, name, owner, [], 0)];
          r := Handle(handle);
        }
      }
      Record(Create(owner, name), r);
    }

    /** Looks through the ports for one of that name. */
    method FindName(name: Name) returns (h: Option<nat>)
      ensures h.Some? ==> h.value in ports && ports[h.value].name == name
      ensures h.None? <==> !Taken(State(ports, nextHandle), name)
    {
      var left := ports.Keys;
      while left != {}
        invariant left <= ports.Keys
        invariant forall k | k in ports && k !in left :: ports[k].name != name
        decreases left
      {
        var k :| k in left;
        if ports[k].name == name {
          assert Taken(State(ports, nextHandle), name);
          return Some(k);
        }
        left := left - {k};
      }
      return None;
    }

    ghost method Record(op: Op, r: Reply)
      requires IsRun(run) && Step(StateAfter(run), op, r, State(ports, nextHandle))
      modifies this`run
      ensures Valid() && run == old(run) + [Event(op, r, State(ports, nextHandle))]
    {
      hide Step, IsRun;
      RunGrows(run, Event(op, r, State(ports, nextHandle)));
      run := run + [Event(op, r, State(ports, nextHandle))];
    }

    method ConnectTo(name: Name) returns (r: Reply)
      requires Valid()
      modifies this`run
      ensures Valid() && run == old(run) + [Event(Connect(name), r, State(ports, nextHandle))]
    {
      hide NameIsValid, IsRun;
      if !NameIsValid(name) {
        r := Failed(BadName);
      } else {
        var holder := FindName(name);
        r := if holder.Some? then Handle(ports[holder.value].handle) else Failed(NotFound);
      }
      Record(Connect(name), r);
    }

    method SendTo(from: nat, handle: nat, bytes: seq<Byte>) returns (r: Reply)
      requires Valid()
      modifies this
      ensures Valid() && run == old(run) + [Event(Send(from, handle, bytes), r, State(ports, nextHandle))]
    {
      hide NameIsValid, IsRun;
      if |bytes| > MAX_MESSAGE {
        r := Failed(TooLarge);
      } else if handle !in ports {
        r := Failed(BadHandle);
      } else {
        var port := ports[handle];
        if |port.queue| >= QUEUE_DEPTH {
          ports := ports[handle := port.(dropped := port.dropped + 1)];
          r := Failed(WouldBlock);
        } else {
          ports := ports[handle := port.(queue := port.queue + [Message(from, bytes)])];
          r := Sent(|bytes|);
        }
      }
      Record(Send(from, handle, bytes), r);
    }

    method Receive(receiver: nat, handle: nat) returns (r: Reply)
      requires Valid()
      modifies this
      ensures Valid() && run == old(run) + [Event(Recv(receiver, handle), r, State(ports, nextHandle))]
    {
      hide NameIsValid, IsRun;
      if handle !in ports || ports[handle].owner != receiver {
        r := Failed(BadHandle);
      } else {
        var port := ports[handle];
        if port.queue == [] {
          r := Failed(WouldBlock);
        } else {
          ports := ports[handle := port.(queue := port.queue[1..])];
          r := Received(port.queue[0]);
        }
      }
      Record(Recv(receiver, handle), r);
    }

    method ClosePort(owner: nat, handle: nat) returns (r: Reply)
      requires Valid()
      modifies this
      ensures Valid() && run == old(run) + [Event(Close(owner, handle), r, State(ports, nextHandle))]
    {
      hide NameIsValid, IsRun;
      if handle in ports && ports[handle].owner == owner {
        ports := ports - {handle};
        r := Closed;
      } else {
        r := Failed(BadHandle);
      }
      Record(Close(owner, handle), r);
    }

    method CloseAll(owner: nat)
      requires Valid()
      modifies this
      ensures Valid() && run == old(run) + [Event(CloseAllFor(owner), Closed, State(ports, nextHandle))]
    {
      hide NameIsValid, IsRun;
      ports := map h | h in ports && ports[h].owner != owner :: ports[h];
      assert ports == old(ports) - OwnedBy(State(old(ports), nextHandle), owner);
      Record(CloseAllFor(owner), Closed);
    }
  }
}
