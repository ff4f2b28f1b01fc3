/** Replacing callbacks while events are dispatched: threads, the mutex, and the thirteen callables that
    are moved one after the other while it is held. */
module WebhookDispatch {
  import opened Wrappers

  /** An application callable is known by a number. */
  type Callback = nat

  const SLOTS: nat := 13

  /** on_event, then the twelve event-specific callbacks in the order they are declared. */
  type CallbackSet = s: seq<Option<Callback>> | |s| == SLOTS witness seq(SLOTS, _ => None)

  const NO_CALLBACKS: CallbackSet := seq(SLOTS, _ => None)

  /** The sets installed, the first one by the constructor. */
  type History = h: seq<CallbackSet> | h != [] witness [NO_CALLBACKS]

  function At(c: seq<Option<Callback>>, slot: nat): Option<Callback> {
    if slot < |c| then c[slot] else None
  }

  function SpecificCallback(c: seq<Option<Callback>>, event: string): Option<Callback> {
    if event == "room_started" then At(c, 1)
    else if event == "room_finished" then At(c, 2)
    else if event == "participant_joined" then At(c, 3)
    else if event == "participant_left" then At(c, 4)
    else if event == "participant_connection_aborted" then At(c, 5)
    else if event == "track_published" then At(c, 6)
    else if event == "track_unpublished" then At(c, 7)
    else if event == "egress_started" then At(c, 8)
    else if event == "egress_updated" then At(c, 9)
    else if event == "egress_ended" then At(c, 10)
    else if event == "ingress_started" then At(c, 11)
    else if event == "ingress_ended" then At(c, 12)
    else None
  }

  const EVENTS: seq<string> :=
    ["room_started", "room_finished", "participant_joined", "participant_left", "participant_connection_aborted",
     "track_published", "track_unpublished", "egress_started", "egress_updated", "egress_ended",
     "ingress_started", "ingress_ended"]

  /** Every event name selects its own callback, and any other name selects none. */
  lemma SpecificByName(c: CallbackSet, event: string)
    ensures forall i :: 0 <= i < |EVENTS| && EVENTS[i] == event ==> SpecificCallback(c, event) == c[i + 1]
    ensures event !in EVENTS ==> SpecificCallback(c, event) == None
  {
  }

  // The machine

  type Thread = nat

  datatype Operation = Setting(callbacks: CallbackSet) | Dispatching(event: string)

  /** Where an activation stands. `Moving(slot, inUser)` holds the mutex: the slots before this one are
      moved, and inUser says that application code runs for this one, the copy constructor of the callable
      that is copied or the destructor of the one that has just been replaced. */
  datatype Pc =
    | Wanting
    | Moving(slot: nat, inUser: bool)
    | Ready | InOnEvent | BeforeSpecific | InSpecific | Returned | Threw

  /** One activation of SetCallbacks or Dispatch: its local copy as far as it has got, and the callbacks it
      has made. The versions are positions in the history of installed sets: the last one when it began,
      the one it copied or installed, the last one when it ended. */
  datatype Activation = Activation(thread: Thread, op: Operation, pc: Pc, local: seq<Option<Callback>>,
                                   made: seq<Callback>, begun: nat, version: nat, ended: nat)

  /** The activation that holds the mutex, the shared set as it is in memory, every set installed so far,
      and the activations of each thread from outermost to innermost. */
  datatype State = State(
    holder: Option<nat>,
    current: CallbackSet,
    history: History,
    activations: seq<Activation>,
    stacks: map<Thread, seq<nat>>)

  datatype Action = Begin(op: Operation) | Proceed | Throw

  function Init(initial: CallbackSet): State {
    State(None, initial, [initial], [], map[])
  }

  predicate InCallback(pc: Pc) {
    pc == InOnEvent || pc == InSpecific
  }

  predicate InUserCode(pc: Pc) {
    InCallback(pc) || (pc.Moving? && pc.inUser)
  }

  predicate Finished(pc: Pc) {
    pc == Returned || pc == Threw
  }

  function Stack(s: State, t: Thread): seq<nat> {
    if t in s.stacks then s.stacks[t] else []
  }

  predicate Running(s: State, t: Thread) {
    Stack(s, t) != [] && Top(s, t) < |s.activations|
  }

  /** The innermost activation of a thread. */
  function Top(s: State, t: Thread): nat
    requires Stack(s, t) != []
  {
    Stack(s, t)[|Stack(s, t)| - 1]
  }

  function Version(s: State): nat {
    |s.history| - 1
  }

  function Last(h: History): CallbackSet {
    h[|h| - 1]
  }

  function Update(s: State, a: nat, act: Activation): State
    requires a < |s.activations|
  {
    s.(activations := s.activations[a := act])
  }

  function Goto(s: State, a: nat, pc: Pc): State
    requires a < |s.activations|
  {
    Update(s, a, s.activations[a].(pc := pc))
  }

  function Leave(s: State, t: Thread, pc: Pc): State
    requires Running(s, t)
  {
    Update(s, Top(s, t), s.activations[Top(s, t)].(pc := pc, ended := Version(s)))
    .(stacks := s.stacks[t := Stack(s, t)[..|Stack(s, t)| - 1]])
  }

  function Call(s: State, a: nat, callback: Callback, pc: Pc): State
    requires a < |s.activations|
  {
    Update(s, a, s.activations[a].(pc := pc, made := s.activations[a].made + [callback]))
  }

  /** SetCallbacks: a slot is overwritten, then the callable it held is destroyed. */
  function SetSlot(s: State, a: nat, callbacks: CallbackSet, slot: nat): State
    requires a < |s.activations| && slot < SLOTS
  {
    Goto(s, a, if s.current[slot].Some? then Moving(slot, true) else Moving(slot + 1, false))
    .(current := s.current[slot := callbacks[slot]])
  }

  /** Dispatch: a slot is read into the local copy. */
  function CopySlot(s: State, a: nat, slot: nat): State
    requires a < |s.activations| && slot < SLOTS
  {
    var act := s.activations[a];
    Update(s, a, act.(pc := Moving(slot + 1, false), local := act.local + [s.current[slot]]))
  }

  /** What the innermost activation of t does next; nothing when it has to wait for the mutex. */
  function Advance(s: State, t: Thread): State
    requires Running(s, t)
  {
    var a := Top(s, t);
    var act := s.activations[a];
    match act.pc
    case Wanting =>
      if s.holder.Some? then s
      else Update(s, a, act.(pc := Moving(0, false), version := Version(s))).(holder := Some(a))
    case Moving(slot, inUser) =>
      (match act.op
       case Setting(callbacks) =>
         if inUser then Goto(s, a, Moving(slot + 1, false))
         else if slot < SLOTS then SetSlot(s, a, callbacks, slot)
         else Leave(Update(s, a, act.(version := |s.history|)).(holder := None, history := s.history + [callbacks]),
                    t, Returned)
       case Dispatching(_) =>
         if slot >= SLOTS then Goto(s, a, Ready).(holder := None)
         else if !inUser && s.current[slot].Some? then Goto(s, a, Moving(slot, true))
         else CopySlot(s, a, slot))
    case Ready =>
      (match At(act.local, 0)
       case Some(callback) => Call(s, a, callback, InOnEvent)
       case None => Goto(s, a, BeforeSpecific))
    case InOnEvent => Goto(s, a, BeforeSpecific)
    case BeforeSpecific =>
      if act.op.Setting? then s
      else
        (match SpecificCallback(act.local, act.op.event)
         case Some(callback) => Call(s, a, callback, InSpecific)
         case None => Leave(s, t, Returned))
    case InSpecific => Leave(s, t, Returned)
    case Returned => s
    case Threw => s
  }

  /** User code throws: a callback, or a copy constructor, whose partial copy is given up and whose lock is
      released. Destructors do not throw. */
  function Unwind(s: State, t: Thread): State
    requires Running(s, t)
  {
    var act := s.activations[Top(s, t)];
    if InCallback(act.pc) then Leave(s, t, Threw)
    else if act.op.Dispatching? && InUserCode(act.pc) then Leave(s.(holder := None), t, Threw)
    else s
  }

  /** A thread starts an operation at top level or from inside user code. */
  function Start(s: State, t: Thread, op: Operation): State {
    if Stack(s, t) == [] || (Running(s, t) && InUserCode(s.activations[Top(s, t)].pc)) then
      s.(activations := s.activations + [Activation(t, op, Wanting, [], [], Version(s), 0, 0)],
         stacks := s.stacks[t := Stack(s, t) + [|s.activations|]])
    else s
  }

  /** One step of a thread; a step that is not possible changes nothing. */
  function Step(s: State, t: Thread, action: Action): State {
    match action
    case Begin(op) => Start(s, t, op)
    case Proceed => if Running(s, t) then Advance(s, t) else s
    case Throw => if Running(s, t) then Unwind(s, t) else s
  }

  // What every state satisfies

  /** The callbacks a set makes for an event: on_event, then the event's own. */
  function OnEvent(c: seq<Option<Callback>>): seq<Callback> {
    match At(c, 0) case Some(callback) => [callback] case None => []
  }

  function Specific(c: seq<Option<Callback>>, event: string): seq<Callback> {
    match SpecificCallback(c, event) case Some(callback) => [callback] case None => []
  }

  /** A set of which the first slots are replaced. */
  function Torn(new_: CallbackSet, old_: CallbackSet, slots: nat): seq<Option<Callback>>
    requires slots <= SLOTS
  {
    new_[..slots] + old_[slots..]
  }

  /** How many slots a setter has written. */
  function Written(pc: Pc): nat
    requires pc.Moving?
  {
    if pc.inUser then pc.slot + 1 else pc.slot
  }

  predicate InSlots(pc: Pc) {
    pc.Moving? ==> Written(pc) <= SLOTS
  }

  predicate SetterOk(act: Activation, callbacks: CallbackSet, h: History, current: CallbackSet)
    requires InSlots(act.pc)
  {
    act.made == [] && act.begun < |h|
    && match act.pc
       case Wanting => true
       case Moving(_, _) => current == Torn(callbacks, Last(h), Written(act.pc))
       case Returned => act.begun < act.version <= act.ended < |h| && h[act.version] == callbacks
       case _ => false
  }

  /** The local copy is a whole installed set. */
  predicate HasCopied(act: Activation, h: History) {
    act.begun <= act.version < |h| && act.local == h[act.version]
  }

  predicate DispatcherOk(act: Activation, event: string, h: History, current: CallbackSet)
    requires InSlots(act.pc)
  {
    act.begun < |h|
    && var both := OnEvent(act.local) + Specific(act.local, event);
    match act.pc
    case Wanting => act.made == [] && act.local == []
    case Moving(slot, _) =>
      act.made == [] && act.local == current[..slot] && current == Last(h) && act.begun <= act.version == |h| - 1
    case Ready => HasCopied(act, h) && act.made == []
    case InOnEvent => HasCopied(act, h) && act.made == OnEvent(act.local) && act.made != []
    case BeforeSpecific => HasCopied(act, h) && act.made == OnEvent(act.local)
    case InSpecific => HasCopied(act, h) && act.made == both && Specific(act.local, event) != []
    case Returned => HasCopied(act, h) && act.made == both && act.version <= act.ended < |h|
    case Threw =>
      act.begun <= act.version <= act.ended < |h|
      && if act.made == [] then |act.local| < SLOTS && act.local <= h[act.version]
         else HasCopied(act, h) && (act.made == OnEvent(act.local) || act.made == both)
  }

  predicate ActOk(act: Activation, h: History, current: CallbackSet) {
    InSlots(act.pc)
    && match act.op
       case Setting(callbacks) => SetterOk(act, callbacks, h, current)
       case Dispatching(event) => DispatcherOk(act, event, h, current)
  }

  ghost predicate Acts(s: State) {
    forall a :: 0 <= a < |s.activations| ==> ActOk(s.activations[a], s.history, s.current)
  }

  /** While nobody holds the mutex the shared set is the last one installed. */
  predicate Memory(s: State) {
    s.holder.None? ==> s.current == Last(s.history)
  }

  /** The mutex is held by the one activation that moves slots. */
  ghost predicate Locks(s: State) {
    && (s.holder.Some? ==> s.holder.value < |s.activations|)
    && forall a :: 0 <= a < |s.activations| ==> (s.activations[a].pc.Moving? <==> s.holder == Some(a))
  }

  /** An activation that is suspended is in user code; if that code runs while slots are moved, the one
      activation above it waits for the mutex. */
  ghost predicate StackOk(s: State, t: Thread) {
    var stack := Stack(s, t);
    && (forall i :: 0 <= i < |stack| ==>
          && stack[i] < |s.activations| && s.activations[stack[i]].thread == t
          && !Finished(s.activations[stack[i]].pc))
    && (forall i, j :: 0 <= i < j < |stack| ==> stack[i] < stack[j])
    && (forall i :: 0 <= i < |stack| - 1 ==>
          && InUserCode(s.activations[stack[i]].pc)
          && (s.activations[stack[i]].pc.Moving? ==>
                i == |stack| - 2 && s.activations[stack[|stack| - 1]].pc == Wanting))
  }

  ghost predicate Stacks(s: State) {
    && (forall t :: StackOk(s, t))
    && forall a :: 0 <= a < |s.activations| && !Finished(s.activations[a].pc) ==>
         a in Stack(s, s.activations[a].thread)
  }

  ghost predicate Inv(s: State) {
    Memory(s) && Locks(s) && Acts(s) && Stacks(s)
  }

  // Keeping it: the activations

  /** An activation that is not moving slots does not depend on the shared set. */
  lemma ActKept(act: Activation, h: History, h': History, current: CallbackSet, current': CallbackSet)
    requires ActOk(act, h, current) && h <= h'
    requires act.pc.Moving? ==> h == h' && current == current'
    ensures ActOk(act, h', current')
  {
    hide OnEvent, Specific, Torn, SpecificCallback;
    if !act.pc.Moving? {
      assert forall v :: 0 <= v < |h| ==> h'[v] == h[v];
    }
  }

  /** s' differs from s in activation a, and only its holder changes the shared set or the history. */
  ghost predicate StepOf(s: State, s': State, a: nat) {
    && a < |s.activations| == |s'.activations|
    && s'.activations == s.activations[a := s'.activations[a]]
    && s'.activations[a].thread == s.activations[a].thread
    && s.history <= s'.history
    && ((s'.history == s.history && s'.current == s.current) || s.holder == Some(a))
    && (s'.holder == s.holder || (s.holder == None && s'.holder == Some(a))
        || (s.holder == Some(a) && s'.holder == None))
  }

  lemma OthersKept(s: State, s': State, a: nat)
    requires Locks(s) && Acts(s) && StepOf(s, s', a)
    requires ActOk(s'.activations[a], s'.history, s'.current)
    ensures Acts(s')
  {
    hide ActOk;
    forall b | 0 <= b < |s'.activations| && b != a ensures ActOk(s'.activations[b], s'.history, s'.current) {
      assert s'.activations[b] == s.activations[b];
      ActKept(s.activations[b], s.history, s'.history, s.current, s'.current);
    }
  }

  lemma LocksKept(s: State, s': State, a: nat)
    requires Locks(s) && StepOf(s, s', a)
    requires s'.activations[a].pc.Moving? <==> s'.holder == Some(a)
    ensures Locks(s')
  {
    forall b | 0 <= b < |s'.activations| ensures s'.activations[b].pc.Moving? <==> s'.holder == Some(b) {
      assert b != a ==> s'.activations[b] == s.activations[b];
    }
  }

  // Keeping it: the stacks

  /** A thread whose own activations stay as they are is none the worse. */
  lemma OtherStack(s: State, s': State, a: nat, u: Thread)
    requires StackOk(s, u) && Stack(s', u) == Stack(s, u) && |s.activations| <= |s'.activations|
    requires forall b :: 0 <= b < |s.activations| && b != a ==> s'.activations[b] == s.activations[b]
    requires forall i :: 0 <= i < |Stack(s, u)| ==> Stack(s, u)[i] != a
    ensures StackOk(s', u)
  {
    var stack := Stack(s, u);
    assert forall i :: 0 <= i < |stack| ==> s'.activations[stack[i]] == s.activations[stack[i]];
  }

  /** The activation on top of one stack is on no other. */
  lemma NotElsewhere(s: State, t: Thread, u: Thread)
    requires StackOk(s, t) && StackOk(s, u) && Stack(s, t) != [] && u != t
    ensures forall i :: 0 <= i < |Stack(s, u)| ==> Stack(s, u)[i] != Top(s, t)
  {
  }

  /** No activation below the top one is moving slots, unless the top one waits for it. */
  lemma NoneBelow(s: State, t: Thread, i: nat)
    requires Locks(s) && StackOk(s, t) && i < |Stack(s, t)| - 1
    requires s.activations[Top(s, t)].pc != Wanting || s.holder == None
    ensures !s.activations[Stack(s, t)[i]].pc.Moving?
  {
  }

  lemma OwnStackKept(s: State, s': State, t: Thread, a: nat)
    requires Locks(s) && StackOk(s, t) && Stack(s, t) != [] && Top(s, t) == a && StepOf(s, s', a)
    requires Stack(s', t) == Stack(s, t) && !Finished(s'.activations[a].pc)
    requires s.activations[a].pc != Wanting || s.holder == None
    ensures StackOk(s', t)
  {
    var stack := Stack(s, t);
    forall i | 0 <= i < |stack| - 1
      ensures s'.activations[stack[i]] == s.activations[stack[i]] && !s.activations[stack[i]].pc.Moving?
    {
      NoneBelow(s, t, i);
    }
  }

  lemma OwnStackPopped(s: State, s': State, t: Thread, a: nat)
    requires Locks(s) && StackOk(s, t) && Stack(s, t) != [] && Top(s, t) == a && StepOf(s, s', a)
    requires Stack(s', t) == Stack(s, t)[..|Stack(s, t)| - 1]
    requires s.activations[a].pc != Wanting || s.holder == None
    ensures StackOk(s', t)
  {
    var stack := Stack(s, t);
    forall i | 0 <= i < |stack| - 1
      ensures s'.activations[stack[i]] == s.activations[stack[i]] && !s.activations[stack[i]].pc.Moving?
    {
      NoneBelow(s, t, i);
    }
  }

  lemma AllOnStack(s: State, s': State, t: Thread, a: nat)
    requires Stacks(s) && Stack(s, t) != [] && Top(s, t) == a && StepOf(s, s', a) && s.activations[a].thread == t
    requires forall u :: u != t ==> Stack(s', u) == Stack(s, u)
    requires if Finished(s'.activations[a].pc) then Stack(s', t) == Stack(s, t)[..|Stack(s, t)| - 1]
             else Stack(s', t) == Stack(s, t)
    ensures forall b :: 0 <= b < |s'.activations| && !Finished(s'.activations[b].pc) ==>
              b in Stack(s', s'.activations[b].thread)
  {
    hide StackOk;
    var stack := Stack(s, t);
    forall b | 0 <= b < |s'.activations| && !Finished(s'.activations[b].pc)
      ensures b in Stack(s', s'.activations[b].thread)
    {
      if b != a {
        assert s'.activations[b] == s.activations[b];
        assert b in Stack(s, s.activations[b].thread);
        if s.activations[b].thread == t {
          var i :| 0 <= i < |stack| && stack[i] == b;
          assert i < |stack| - 1;
          assert Finished(s'.activations[a].pc) ==> Stack(s', t)[i] == b;
        }
      }
    }
  }

  lemma StacksKept(s: State, s': State, t: Thread, a: nat)
    requires Locks(s) && Stacks(s) && Stack(s, t) != [] && Top(s, t) == a && StepOf(s, s', a)
    requires forall u :: u != t ==> Stack(s', u) == Stack(s, u)
    requires if Finished(s'.activations[a].pc) then Stack(s', t) == Stack(s, t)[..|Stack(s, t)| - 1]
             else Stack(s', t) == Stack(s, t)
    requires s.activations[a].pc != Wanting || s.holder == None
    ensures Stacks(s')
  {
    TopFacts(s, t);
    AllOnStack(s, s', t, a);
    hide StackOk, Locks;
    forall u ensures StackOk(s', u) {
      assert StackOk(s, u) && StackOk(s, t);
      if u != t {
        NotElsewhere(s, t, u);
        OtherStack(s, s', a, u);
      } else if Finished(s'.activations[a].pc) {
        OwnStackPopped(s, s', t, a);
      } else {
        OwnStackKept(s, s', t, a);
      }
    }
  }

  lemma TopFacts(s: State, t: Thread)
    requires Stacks(s) && Stack(s, t) != []
    ensures Running(s, t) && s.activations[Top(s, t)].thread == t && !Finished(s.activations[Top(s, t)].pc)
    ensures StackOk(s, t)
  {
    assert StackOk(s, t);
  }

  /** One step of the innermost activation of t, stacks included. */
  ghost predicate Moves(s: State, s': State, t: Thread, a: nat) {
    && Stack(s, t) != [] && Top(s, t) == a && StepOf(s, s', a)
    && (forall u :: u != t ==> Stack(s', u) == Stack(s, u))
    && (if Finished(s'.activations[a].pc) then Stack(s', t) == Stack(s, t)[..|Stack(s, t)| - 1]
        else Stack(s', t) == Stack(s, t))
    && (s'.activations[a].pc.Moving? <==> s'.holder == Some(a))
    && (s.activations[a].pc != Wanting || s.holder == None)
  }

  lemma MovesKeepsInv(s: State, s': State, t: Thread, a: nat)
    requires Inv(s) && Moves(s, s', t, a)
    requires ActOk(s'.activations[a], s'.history, s'.current) && Memory(s')
    ensures Inv(s')
  {
    hide ActOk, Memory, Locks, Acts, Stacks, StepOf;
    OthersKept(s, s', a);
    LocksKept(s, s', a);
    StacksKept(s, s', t, a);
  }

  // Keeping it: each step

  lemma MovesGoto(s: State, t: Thread, act: Activation)
    requires Locks(s) && Running(s, t) && act.thread == s.activations[Top(s, t)].thread
    requires !Finished(act.pc) && !act.pc.Moving? && !s.activations[Top(s, t)].pc.Moving?
    requires s.activations[Top(s, t)].pc != Wanting
    ensures Moves(s, Update(s, Top(s, t), act), t, Top(s, t))
  {
  }

  lemma MovesLeave(s: State, t: Thread, pc: Pc)
    requires Locks(s) && Running(s, t) && Finished(pc)
    requires !s.activations[Top(s, t)].pc.Moving? && s.activations[Top(s, t)].pc != Wanting
    ensures Moves(s, Leave(s, t, pc), t, Top(s, t))
  {
  }

  /** The facts about the innermost activation. */
  lemma TopIsOk(s: State, t: Thread)
    requires Inv(s) && Stack(s, t) != []
    ensures Running(s, t)
    ensures var act := s.activations[Top(s, t)];
            && act.thread == t && !Finished(act.pc) && ActOk(act, s.history, s.current)
            && (act.pc.Moving? <==> s.holder == Some(Top(s, t)))
  {
    TopFacts(s, t);
    hide ActOk, StackOk;
  }

  lemma AcquireStep(s: State, t: Thread)
    requires Inv(s) && Running(s, t) && s.activations[Top(s, t)].pc == Wanting
    ensures Inv(Advance(s, t))
  {
    var a := Top(s, t);
    TopIsOk(s, t);
    if s.holder.None? {
      hide OnEvent, Specific, SpecificCallback, Stacks, Acts, Inv;
      InvParts(s);
      assert Moves(s, Advance(s, t), t, a);
      MovesKeepsInv(s, Advance(s, t), t, a);
    }
  }

  lemma InvParts(s: State)
    requires Inv(s)
    ensures Memory(s) && Locks(s) && Acts(s) && Stacks(s)
  {
  }

  // A setter

  lemma TornNext(new_: CallbackSet, old_: CallbackSet, slot: nat)
    requires slot < SLOTS
    ensures Torn(new_, old_, slot)[slot := new_[slot]] == Torn(new_, old_, slot + 1)
    ensures Torn(new_, old_, slot)[slot] == old_[slot]
  {
  }

  lemma TornEnds(new_: CallbackSet, old_: CallbackSet)
    ensures Torn(new_, old_, 0) == old_ && Torn(new_, old_, SLOTS) == new_
  {
  }

  lemma SetSlotStep(s: State, t: Thread, callbacks: CallbackSet, slot: nat)
    requires Inv(s) && Running(s, t) && slot < SLOTS
    requires s.activations[Top(s, t)].op == Setting(callbacks) && s.activations[Top(s, t)].pc == Moving(slot, false)
    ensures Inv(SetSlot(s, Top(s, t), callbacks, slot))
  {
    var a := Top(s, t);
    TopIsOk(s, t);
    InvParts(s);
    TornNext(callbacks, Last(s.history), slot);
    hide Torn, Stacks, Acts, Inv, OnEvent, Specific, DispatcherOk;
    MovesKeepsInv(s, SetSlot(s, a, callbacks, slot), t, a);
  }

  lemma SlotIsSet(s: State, t: Thread, callbacks: CallbackSet, slot: nat)
    requires Inv(s) && Running(s, t)
    requires s.activations[Top(s, t)].op == Setting(callbacks) && s.activations[Top(s, t)].pc == Moving(slot, true)
    ensures Inv(Goto(s, Top(s, t), Moving(slot + 1, false)))
  {
    var a := Top(s, t);
    TopIsOk(s, t);
    InvParts(s);
    hide Torn, Stacks, Acts, Inv, OnEvent, Specific, DispatcherOk;
    MovesKeepsInv(s, Goto(s, a, Moving(slot + 1, false)), t, a);
  }

  lemma InstallStep(s: State, t: Thread, callbacks: CallbackSet)
    requires Inv(s) && Running(s, t)
    requires s.activations[Top(s, t)].op == Setting(callbacks) && s.activations[Top(s, t)].pc == Moving(SLOTS, false)
    ensures Inv(Advance(s, t))
  {
    var a := Top(s, t);
    TopIsOk(s, t);
    InvParts(s);
    TornEnds(callbacks, Last(s.history));
    hide Torn, Stacks, Acts, Inv, OnEvent, Specific, DispatcherOk;
    MovesKeepsInv(s, Advance(s, t), t, a);
  }

  /** The three steps of a setter. */
  lemma SetterAdvances(s: State, t: Thread)
    requires Running(s, t)
    requires s.activations[Top(s, t)].op.Setting? && s.activations[Top(s, t)].pc.Moving?
    ensures var a := Top(s, t);
            var act := s.activations[a];
            && (act.pc.inUser ==> Advance(s, t) == Goto(s, a, Moving(act.pc.slot + 1, false)))
            && (!act.pc.inUser && act.pc.slot < SLOTS ==> Advance(s, t) == SetSlot(s, a, act.op.callbacks, act.pc.slot))
  {
    hide Leave, SetSlot, Goto, Update, SpecificCallback;
  }

  lemma SlotInRange(s: State, t: Thread)
    requires Inv(s) && Running(s, t) && s.activations[Top(s, t)].pc.Moving?
    ensures Written(s.activations[Top(s, t)].pc) <= SLOTS
  {
    TopIsOk(s, t);
    hide Inv, SetterOk, DispatcherOk;
  }

  lemma SetterStep(s: State, t: Thread)
    requires Inv(s) && Running(s, t)
    requires s.activations[Top(s, t)].op.Setting? && s.activations[Top(s, t)].pc.Moving?
    ensures Inv(Advance(s, t))
  {
    SlotInRange(s, t);
    SetterAdvances(s, t);
    var act := s.activations[Top(s, t)];
    hide Inv, SetSlot, Goto, Update, Leave, Advance, Running, Stack;
    if act.pc.inUser {
      SlotIsSet(s, t, act.op.callbacks, act.pc.slot);
    } else if act.pc.slot < SLOTS {
      SetSlotStep(s, t, act.op.callbacks, act.pc.slot);
    } else {
      InstallStep(s, t, act.op.callbacks);
    }
  }

  // A dispatcher

  lemma CopySlotStep(s: State, t: Thread, slot: nat)
    requires Inv(s) && Running(s, t) && slot < SLOTS
    requires s.activations[Top(s, t)].op.Dispatching?
    requires s.activations[Top(s, t)].pc.Moving? && s.activations[Top(s, t)].pc.slot == slot
    ensures Inv(CopySlot(s, Top(s, t), slot))
  {
    var a := Top(s, t);
    TopIsOk(s, t);
    InvParts(s);
    assert s.current[..slot + 1] == s.current[..slot] + [s.current[slot]];
    hide Torn, Stacks, Acts, Inv, OnEvent, Specific, SetterOk;
    MovesKeepsInv(s, CopySlot(s, a, slot), t, a);
  }

  lemma CopyBegins(s: State, t: Thread, slot: nat)
    requires Inv(s) && Running(s, t) && slot < SLOTS
    requires s.activations[Top(s, t)].op.Dispatching? && s.activations[Top(s, t)].pc == Moving(slot, false)
    ensures Inv(Goto(s, Top(s, t), Moving(slot, true)))
  {
    var a := Top(s, t);
    TopIsOk(s, t);
    InvParts(s);
    hide Torn, Stacks, Acts, Inv, OnEvent, Specific, SetterOk;
    MovesKeepsInv(s, Goto(s, a, Moving(slot, true)), t, a);
  }

  lemma UnlockStep(s: State, t: Thread)
    requires Inv(s) && Running(s, t)
    requires s.activations[Top(s, t)].op.Dispatching? && s.activations[Top(s, t)].pc == Moving(SLOTS, false)
    ensures Inv(Advance(s, t))
  {
    var a := Top(s, t);
    TopIsOk(s, t);
    InvParts(s);
    assert s.current[..SLOTS] == s.current;
    hide Torn, Stacks, Acts, Inv, OnEvent, Specific, SetterOk;
    MovesKeepsInv(s, Advance(s, t), t, a);
  }

  lemma CopierAdvances(s: State, t: Thread)
    requires Running(s, t)
    requires s.activations[Top(s, t)].op.Dispatching? && s.activations[Top(s, t)].pc.Moving?
    ensures var a := Top(s, t);
            var pc := s.activations[a].pc;
            pc.slot < SLOTS ==>
              Advance(s, t) == if !pc.inUser && s.current[pc.slot].Some? then Goto(s, a, Moving(pc.slot, true))
                               else CopySlot(s, a, pc.slot)
  {
    hide Leave, CopySlot, Goto, Update, SpecificCallback;
  }

  lemma CopierStep(s: State, t: Thread)
    requires Inv(s) && Running(s, t)
    requires s.activations[Top(s, t)].op.Dispatching? && s.activations[Top(s, t)].pc.Moving?
    ensures Inv(Advance(s, t))
  {
    SlotInRange(s, t);
    CopierAdvances(s, t);
    var act := s.activations[Top(s, t)];
    hide Inv, CopySlot, Goto, Update, Leave, Advance, Running, Stack;
    if act.pc.slot >= SLOTS {
      UnlockStep(s, t);
    } else if !act.pc.inUser && s.current[act.pc.slot].Some? {
      CopyBegins(s, t, act.pc.slot);
    } else {
      CopySlotStep(s, t, act.pc.slot);
    }
  }

  /** A step from one state of a dispatch that has its copy to another. */
  lemma CallerGoes(s: State, t: Thread, act: Activation)
    requires Inv(s) && Running(s, t)
    requires var now := s.activations[Top(s, t)];
             && act.thread == now.thread && !now.pc.Moving? && now.pc != Wanting
             && !act.pc.Moving? && !Finished(act.pc) && ActOk(act, s.history, s.current)
    ensures Inv(Update(s, Top(s, t), act))
  {
    var a := Top(s, t);
    InvParts(s);
    TopIsOk(s, t);
    MovesGoto(s, t, act);
    hide ActOk, Stacks, Acts, Inv, Locks, Moves;
    MovesKeepsInv(s, Update(s, a, act), t, a);
  }

  lemma CallerLeaves(s: State, t: Thread, pc: Pc)
    requires Inv(s) && Running(s, t) && Finished(pc)
    requires var now := s.activations[Top(s, t)];
             && !now.pc.Moving? && now.pc != Wanting
             && ActOk(now.(pc := pc, ended := Version(s)), s.history, s.current)
    ensures Inv(Leave(s, t, pc))
  {
    var a := Top(s, t);
    InvParts(s);
    TopIsOk(s, t);
    MovesLeave(s, t, pc);
    hide ActOk, Stacks, Acts, Inv, Locks, Moves;
    MovesKeepsInv(s, Leave(s, t, pc), t, a);
  }

  lemma OnlyDispatchersCall(act: Activation, h: History, current: CallbackSet)
    requires ActOk(act, h, current) && act.pc != Wanting && !act.pc.Moving? && !Finished(act.pc)
    ensures act.op.Dispatching? && DispatcherOk(act, act.op.event, h, current)
  {
    hide DispatcherOk;
  }

  lemma CallerStep(s: State, t: Thread)
    requires Inv(s) && Running(s, t)
    requires s.activations[Top(s, t)].pc != Wanting && !s.activations[Top(s, t)].pc.Moving?
    ensures Inv(Advance(s, t))
  {
    TopIsOk(s, t);
    var act := s.activations[Top(s, t)];
    OnlyDispatchersCall(act, s.history, s.current);
    hide Inv, SpecificCallback, SetterOk;
    match act.pc
    case Ready =>
      if At(act.local, 0).Some? {
        CallerGoes(s, t, act.(pc := InOnEvent, made := act.made + [At(act.local, 0).value]));
      } else {
        CallerGoes(s, t, act.(pc := BeforeSpecific));
      }
    case InOnEvent => CallerGoes(s, t, act.(pc := BeforeSpecific));
    case BeforeSpecific =>
      var callback := SpecificCallback(act.local, act.op.event);
      if callback.Some? {
        CallerGoes(s, t, act.(pc := InSpecific, made := act.made + [callback.value]));
      } else {
        CallerLeaves(s, t, Returned);
      }
    case InSpecific => CallerLeaves(s, t, Returned);
    case _ =>
  }

  // Exceptions and new activations

  lemma ThrowFromCallback(s: State, t: Thread)
    requires Inv(s) && Running(s, t) && InCallback(s.activations[Top(s, t)].pc)
    ensures Inv(Leave(s, t, Threw))
  {
    TopIsOk(s, t);
    OnlyDispatchersCall(s.activations[Top(s, t)], s.history, s.current);
    hide Inv, SpecificCallback, SetterOk;
    CallerLeaves(s, t, Threw);
  }

  lemma ThrowFromCopy(s: State, t: Thread)
    requires Inv(s) && Running(s, t)
    requires s.activations[Top(s, t)].op.Dispatching? && s.activations[Top(s, t)].pc.Moving?
    requires s.activations[Top(s, t)].pc.inUser
    ensures Inv(Leave(s.(holder := None), t, Threw))
  {
    var a := Top(s, t);
    TopIsOk(s, t);
    InvParts(s);
    hide Torn, Stacks, Acts, Inv, OnEvent, Specific, SetterOk;
    MovesKeepsInv(s, Leave(s.(holder := None), t, Threw), t, a);
  }

  lemma UnwindStep(s: State, t: Thread)
    requires Inv(s) && Running(s, t)
    ensures Inv(Unwind(s, t))
  {
    hide Inv, Leave;
    var act := s.activations[Top(s, t)];
    if InCallback(act.pc) {
      ThrowFromCallback(s, t);
    } else if act.op.Dispatching? && InUserCode(act.pc) {
      ThrowFromCopy(s, t);
    }
  }

  lemma StartActs(s: State, s': State, act: Activation)
    requires Acts(s) && Locks(s) && s'.history == s.history && s'.current == s.current && s'.holder == s.holder
    requires s'.activations == s.activations + [act] && act.pc == Wanting && ActOk(act, s.history, s.current)
    ensures Acts(s') && Locks(s')
  {
    hide ActOk;
    forall b | 0 <= b < |s'.activations|
      ensures ActOk(s'.activations[b], s'.history, s'.current)
      ensures s'.activations[b].pc.Moving? <==> s'.holder == Some(b)
    {
      assert b < |s.activations| ==> s'.activations[b] == s.activations[b];
    }
  }

  lemma StartOwnStack(s: State, s': State, t: Thread, act: Activation)
    requires StackOk(s, t) && Locks(s)
    requires Stack(s, t) == [] || (Running(s, t) && InUserCode(s.activations[Top(s, t)].pc))
    requires s'.activations == s.activations + [act] && act.pc == Wanting && act.thread == t
    requires Stack(s', t) == Stack(s, t) + [|s.activations|]
    ensures StackOk(s', t)
  {
    var stack, n := Stack(s, t), |s.activations|;
    hide Locks;
    forall i | 0 <= i < |stack| ensures s'.activations[stack[i]] == s.activations[stack[i]] { }
    if stack != [] {
      assert s.activations[stack[|stack| - 1]].pc != Wanting;
      assert forall i :: 0 <= i < |stack| - 1 ==> !s.activations[stack[i]].pc.Moving?;
    }
  }

  lemma StartStacks(s: State, s': State, t: Thread, act: Activation)
    requires Stacks(s) && Locks(s)
    requires Stack(s, t) == [] || (Running(s, t) && InUserCode(s.activations[Top(s, t)].pc))
    requires s'.activations == s.activations + [act] && act.pc == Wanting && act.thread == t
    requires Stack(s', t) == Stack(s, t) + [|s.activations|]
    requires forall u :: u != t ==> Stack(s', u) == Stack(s, u)
    ensures Stacks(s')
  {
    var n := |s.activations|;
    forall u ensures StackOk(s', u) {
      assert StackOk(s, u) && StackOk(s, t);
      if u == t {
        StartOwnStack(s, s', t, act);
      } else {
        OtherStack(s, s', n, u);
      }
    }
    hide StackOk, Locks;
    forall b | 0 <= b < |s'.activations| && !Finished(s'.activations[b].pc)
      ensures b in Stack(s', s'.activations[b].thread)
    {
      if b < n {
        assert s'.activations[b] == s.activations[b] && b in Stack(s, s.activations[b].thread);
      } else {
        assert Stack(s', t)[|Stack(s, t)|] == n;
      }
    }
  }

  lemma StartStep(s: State, t: Thread, op: Operation)
    requires Inv(s)
    ensures Inv(Start(s, t, op))
  {
    if Stack(s, t) == [] || (Running(s, t) && InUserCode(s.activations[Top(s, t)].pc)) {
      var act := Activation(t, op, Wanting, [], [], Version(s), 0, 0);
      var s' := Start(s, t, op);
      assert ActOk(act, s.history, s.current);
      hide ActOk, Locks, Acts, Stacks;
      StartActs(s, s', act);
      StartStacks(s, s', t, act);
    }
  }

  /** Every step of every thread keeps the invariant. */
  lemma StepInv(s: State, t: Thread, action: Action)
    requires Inv(s)
    ensures Inv(Step(s, t, action))
  {
    hide Inv, Start, Advance, Unwind;
    match action
    case Begin(op) => StartStep(s, t, op);
    case Throw =>
      if Running(s, t) {
        UnwindStep(s, t);
      }
    case Proceed =>
      if Running(s, t) {
        var act := s.activations[Top(s, t)];
        if act.pc == Wanting {
          AcquireStep(s, t);
        } else if !act.pc.Moving? {
          CallerStep(s, t);
        } else if act.op.Setting? {
          SetterStep(s, t);
        } else {
          CopierStep(s, t);
        }
      }
  }

  // Whole runs

  type Steps = seq<(Thread, Action)>

  /** The state after any interleaving of steps. */
  function RunFrom(s: State, steps: Steps): State
    decreases |steps|
  {
    if steps == [] then s
    else
      var before := RunFrom(s, steps[..|steps| - 1]);
      Step(before, steps[|steps| - 1].0, steps[|steps| - 1].1)
  }

  function Run(initial: CallbackSet, steps: Steps): State {
    RunFrom(Init(initial), steps)
  }

  lemma {:induction false} RunFromInv(s: State, steps: Steps)
    requires Inv(s)
    ensures Inv(RunFrom(s, steps))
    decreases |steps|
  {
    hide Inv, Step;
    if steps != [] {
      RunFromInv(s, steps[..|steps| - 1]);
      StepInv(RunFrom(s, steps[..|steps| - 1]), steps[|steps| - 1].0, steps[|steps| - 1].1);
    }
  }

  lemma RunInv(initial: CallbackSet, steps: Steps)
    ensures Inv(Run(initial, steps))
  {
    assert Inv(Init(initial));
    hide Inv, RunFrom;
    RunFromInv(Init(initial), steps);
  }

  lemma {:induction false} RunAppend(s: State, a: Steps, b: Steps)
    ensures RunFrom(s, a + b) == RunFrom(RunFrom(s, a), b)
    decreases |b|
  {
    hide Step;
    if b == [] {
      assert a + b == a;
    } else {
      assert (a + b)[..|a + b| - 1] == a + b[..|b| - 1];
      RunAppend(s, a, b[..|b| - 1]);
    }
  }

  // The shared set in memory

  /** While nobody holds the mutex the shared set is the last one installed; while a setter holds it, the
      slots it has written are new and the others are those of that set; while a dispatcher holds it, nothing
      changes. */
  lemma SharedSet(initial: CallbackSet, steps: Steps)
    ensures var s := Run(initial, steps);
            match s.holder
            case None => s.current == Last(s.history)
            case Some(a) =>
              && a < |s.activations| && s.activations[a].pc.Moving? && Written(s.activations[a].pc) <= SLOTS
              && s.current == (match s.activations[a].op
                               case Setting(callbacks) =>
                                 Torn(callbacks, Last(s.history), Written(s.activations[a].pc))
                               case Dispatching(_) => Last(s.history))
  {
    RunInv(initial, steps);
    var s := Run(initial, steps);
    hide Run, RunFrom, Torn, OnEvent, Specific, Stacks;
    if s.holder.Some? {
      assert ActOk(s.activations[s.holder.value], s.history, s.current);
    }
  }

  /** Slots are moved by one activation at a time. */
  lemma MutualExclusion(initial: CallbackSet, steps: Steps, a: nat, b: nat)
    requires a < |Run(initial, steps).activations| && b < |Run(initial, steps).activations|
    requires Run(initial, steps).activations[a].pc.Moving? && Run(initial, steps).activations[b].pc.Moving?
    ensures a == b
  {
    RunInv(initial, steps);
    hide Run, RunFrom, Acts, Stacks;
  }

  // What a dispatch does

  /** The callables in the set c that an event of this name calls: the one in slot 0, if it is set, then the
      one in the slot after the event's place in the list, if there is such a place and it is set. */
  ghost predicate Calls(c: CallbackSet, event: string, calls: seq<Callback>) {
    var first := if c[0].Some? then [c[0].value] else [];
    && (event !in EVENTS ==> calls == first)
    && (forall i :: 0 <= i < |EVENTS| && EVENTS[i] == event && c[i + 1].Some? ==> calls == first + [c[i + 1].value])
    && (forall i :: 0 <= i < |EVENTS| && EVENTS[i] == event && c[i + 1].None? ==> calls == first)
  }

  lemma CallsOnce(c: CallbackSet, event: string)
    ensures Calls(c, event, OnEvent(c) + Specific(c, event))
  {
    SpecificByName(c, event);
    hide SpecificCallback;
  }

  /** What a finished dispatch has done: a whole copy of one installed set, then the calls of that set for
      its event; cut short by an exception, a prefix of that. */
  ghost predicate Dispatched(act: Activation, event: string, h: History) {
    && act.begun <= act.version <= act.ended < |h|
    && (act.pc == Returned ==> act.local == h[act.version] && Calls(h[act.version], event, act.made))
    && act.local <= h[act.version]
    && exists calls :: Calls(h[act.version], event, calls) && act.made <= calls
  }

  lemma DispatchedOk(act: Activation, event: string, h: History, current: CallbackSet)
    requires act.op == Dispatching(event) && ActOk(act, h, current) && Finished(act.pc)
    ensures Dispatched(act, event, h)
  {
    hide OnEvent, Specific, SetterOk, Calls;
    CallsOnce(h[act.version], event);
  }

  /** In every interleaving, with the thirteen callables moved one by one: a dispatch that returned copied
      exactly one installed set, which was the last one installed at some moment between its begin and its
      end, and called on_event and then the event's own callback of that set; one cut short by an exception,
      in a callback or in a copy constructor, made a prefix of these calls. */
  lemma DispatchSnapshot(initial: CallbackSet, steps: Steps, a: nat)
    requires var s := Run(initial, steps);
             a < |s.activations| && s.activations[a].op.Dispatching? && Finished(s.activations[a].pc)
    ensures var s := Run(initial, steps);
            Dispatched(s.activations[a], s.activations[a].op.event, s.history)
  {
    RunInv(initial, steps);
    var s := Run(initial, steps);
    hide Run, RunFrom, ActOk, Dispatched, Stacks, Locks, Memory;
    DispatchedOk(s.activations[a], s.activations[a].op.event, s.history, s.current);
  }

  /** The calls made so far come from a whole installed set. */
  ghost predicate CallsFrom(act: Activation, h: History) {
    act.made == []
    || (act.op.Dispatching? && act.version < |h| && act.local == h[act.version]
        && exists calls :: Calls(h[act.version], act.op.event, calls) && act.made <= calls)
  }

  lemma CallsOk(act: Activation, h: History, current: CallbackSet)
    requires ActOk(act, h, current)
    ensures CallsFrom(act, h)
  {
    hide OnEvent, Specific, Torn, Calls;
    if act.op.Dispatching? && act.version < |h| {
      CallsOnce(h[act.version], act.op.event);
    }
  }

  /** At every moment the callbacks a dispatch has made come from a whole installed set. */
  lemma CallsComeFromCopy(initial: CallbackSet, steps: Steps, a: nat)
    requires a < |Run(initial, steps).activations|
    ensures CallsFrom(Run(initial, steps).activations[a], Run(initial, steps).history)
  {
    RunInv(initial, steps);
    var s := Run(initial, steps);
    hide Run, RunFrom, ActOk, CallsFrom, Stacks, Locks, Memory;
    CallsOk(s.activations[a], s.history, s.current);
  }

  // User code and the mutex

  lemma HolderOnStack(s: State, a: nat)
    requires Inv(s) && s.holder == Some(a)
    ensures a < |s.activations| && s.activations[a].pc.Moving? && a in Stack(s, s.activations[a].thread)
    ensures StackOk(s, s.activations[a].thread) && Running(s, s.activations[a].thread)
  {
    hide Acts, StackOk;
    assert StackOk(s, s.activations[a].thread);
    TopFacts(s, s.activations[a].thread);
  }

  /** A thread that holds the mutex is not in a callback: its innermost activation moves slots, or waits for
      the mutex because copy or destroy code has entered the receiver again. */
  lemma NoLockInCallbacks(initial: CallbackSet, steps: Steps, a: nat)
    requires Run(initial, steps).holder == Some(a)
    ensures var s := Run(initial, steps);
            && a < |s.activations|
            && var t := s.activations[a].thread;
            && Running(s, t)
            && if Top(s, t) == a then s.activations[a].pc.Moving?
               else InUserCode(s.activations[a].pc) && s.activations[Top(s, t)].pc == Wanting
  {
    RunInv(initial, steps);
    var s := Run(initial, steps);
    hide Run, RunFrom, Inv;
    HolderOnStack(s, a);
    var stack := Stack(s, s.activations[a].thread);
    var i :| 0 <= i < |stack| && stack[i] == a;
  }

  /** How many steps of its own an activation is from releasing the mutex, at most. */
  function Left(pc: Pc): int
    requires pc.Moving?
  {
    2 * (SLOTS - pc.slot) + if pc.inUser then 0 else 1
  }

  function Proceeds(steps: Steps, t: Thread): nat {
    if steps == [] then 0
    else Proceeds(steps[..|steps| - 1], t) + if steps[|steps| - 1] == (t, Proceed) then 1 else 0
  }

  /** t does not enter the receiver again. */
  predicate StartsNothing(steps: Steps, t: Thread) {
    forall i :: 0 <= i < |steps| && steps[i].0 == t ==> !steps[i].1.Begin?
  }

  /** Activation a of t is past moving slots, or still moves them, on top of its stack, and has used up a
      step for each of the steps taken. */
  predicate OnItsWay(s: State, a: nat, t: Thread, left: int, taken: nat) {
    && a < |s.activations| && s.activations[a].thread == t && s.activations[a].pc != Wanting
    && (s.activations[a].pc.Moving? ==>
          Stack(s, t) != [] && Top(s, t) == a && Left(s.activations[a].pc) + taken <= left)
  }

  /** The activation a step of u may change. */
  predicate IsTop(s: State, u: Thread, b: nat) {
    Stack(s, u) != [] && Top(s, u) == b
  }

  /** What a step of u leaves alone: the other stacks, every activation but its innermost one, and what that
      one is and when it began; what is new has begun now. */
  ghost predicate Touches(s: State, s': State, u: Thread) {
    && (forall t :: t != u ==> Stack(s', t) == Stack(s, t))
    && |s.activations| <= |s'.activations| && s.history <= s'.history
    && (forall b :: 0 <= b < |s.activations| ==>
          if IsTop(s, u, b) then
            s'.activations[b].begun == s.activations[b].begun && s'.activations[b].thread == s.activations[b].thread
          else s'.activations[b] == s.activations[b])
    && (forall b :: |s.activations| <= b < |s'.activations| ==> s'.activations[b].begun == Version(s))
  }

  lemma TouchesTop(s: State, s': State, u: Thread, act: Activation)
    requires Running(s, u) && s'.activations == s.activations[Top(s, u) := act] && s.history <= s'.history
    requires forall t :: t != u ==> Stack(s', t) == Stack(s, t)
    requires act.begun == s.activations[Top(s, u)].begun && act.thread == s.activations[Top(s, u)].thread
    ensures Touches(s, s', u)
  {
  }

  lemma TouchesNothing(s: State, u: Thread)
    ensures Touches(s, s, u)
  {
  }

  lemma LeaveTouches(s: State, u: Thread, pc: Pc)
    requires Running(s, u)
    ensures var s' := Leave(s, u, pc);
            && s'.activations == s.activations[Top(s, u) := s'.activations[Top(s, u)]] && s'.history == s.history
            && s'.activations[Top(s, u)].begun == s.activations[Top(s, u)].begun
            && s'.activations[Top(s, u)].thread == s.activations[Top(s, u)].thread
            && s'.stacks == s.stacks[u := Stack(s, u)[..|Stack(s, u)| - 1]]
  {
  }

  lemma MoveTouches(s: State, u: Thread)
    requires Running(s, u) && s.activations[Top(s, u)].pc.Moving?
    ensures Touches(s, Advance(s, u), u)
  {
    var a := Top(s, u);
    var act := s.activations[a];
    hide Touches;
    match act.op
    case Setting(callbacks) =>
      if !act.pc.inUser && act.pc.slot >= SLOTS {
        var installed :=
          Update(s, a, act.(version := |s.history|)).(holder := None, history := s.history + [callbacks]);
        LeaveTouches(installed, u, Returned);
        hide Leave;
        TouchesTop(s, Advance(s, u), u, Advance(s, u).activations[a]);
      } else {
        TouchesTop(s, Advance(s, u), u, Advance(s, u).activations[a]);
      }
    case Dispatching(_) => TouchesTop(s, Advance(s, u), u, Advance(s, u).activations[a]);
  }

  lemma AdvanceTouches(s: State, u: Thread)
    requires Running(s, u)
    ensures Touches(s, Advance(s, u), u)
  {
    var a := Top(s, u);
    hide Touches, SpecificCallback;
    LeaveTouches(s, u, Returned);
    TouchesNothing(s, u);
    if s.activations[a].pc.Moving? {
      hide Advance;
      MoveTouches(s, u);
    } else if Advance(s, u) != s {
      hide Leave;
      TouchesTop(s, Advance(s, u), u, Advance(s, u).activations[a]);
    }
  }

  lemma StepTouches(s: State, u: Thread, action: Action)
    ensures Touches(s, Step(s, u, action), u)
  {
    match action
    case Begin(op) =>
    case Throw =>
      if Running(s, u) {
        LeaveTouches(s, u, Threw);
        LeaveTouches(s.(holder := None), u, Threw);
        hide Leave, Touches;
        TouchesNothing(s, u);
        if Unwind(s, u) != s {
          TouchesTop(s, Unwind(s, u), u, Unwind(s, u).activations[Top(s, u)]);
        }
      }
    case Proceed =>
      hide Touches, Advance;
      TouchesNothing(s, u);
      if Running(s, u) {
        AdvanceTouches(s, u);
      }
  }

  /** A step of another thread leaves t's stack and activations alone. */
  lemma OtherThreadStep(s: State, u: Thread, action: Action, t: Thread)
    requires Inv(s) && u != t
    ensures var s' := Step(s, u, action);
            && Stack(s', t) == Stack(s, t) && |s.activations| <= |s'.activations|
            && forall a :: 0 <= a < |s.activations| && s.activations[a].thread == t ==>
                 s'.activations[a] == s.activations[a]
  {
    StepTouches(s, u, action);
    hide Step, StackOk;
    if Stack(s, u) != [] {
      TopFacts(s, u);
    }
  }

  /** A step of its own takes a mover on. */
  lemma MoverStep(s: State, t: Thread, a: nat)
    requires Inv(s) && Running(s, t) && Top(s, t) == a && s.activations[a].pc.Moving?
    ensures var s' := Step(s, t, Proceed);
            && a < |s'.activations| && s'.activations[a].thread == t && s'.activations[a].pc != Wanting
            && (s'.activations[a].pc.Moving? ==>
                  Stack(s', t) == Stack(s, t) && Left(s'.activations[a].pc) < Left(s.activations[a].pc))
  {
    TopIsOk(s, t);
    hide Acts, Locks, Memory, Stacks, Torn, OnEvent, Specific, SpecificCallback;
  }

  /** No step leads back to moving slots or to waiting. */
  lemma AdvancePast(s: State, t: Thread)
    requires Running(s, t)
    requires s.activations[Top(s, t)].pc != Wanting && !s.activations[Top(s, t)].pc.Moving?
    ensures var act := Advance(s, t).activations[Top(s, t)];
            act.thread == s.activations[Top(s, t)].thread && act.pc != Wanting && !act.pc.Moving?
  {
    hide SpecificCallback;
  }

  lemma UnwindPast(s: State, t: Thread)
    requires Running(s, t)
    requires s.activations[Top(s, t)].pc != Wanting && !s.activations[Top(s, t)].pc.Moving?
    ensures var act := Unwind(s, t).activations[Top(s, t)];
            act.thread == s.activations[Top(s, t)].thread && act.pc != Wanting && !act.pc.Moving?
  {
  }

  lemma PastMoving(s: State, t: Thread, action: Action, a: nat)
    requires Inv(s) && a < |s.activations| && s.activations[a].thread == t
    requires s.activations[a].pc != Wanting && !s.activations[a].pc.Moving?
    ensures var s' := Step(s, t, action);
            && a < |s'.activations| && s'.activations[a].thread == t
            && s'.activations[a].pc != Wanting && !s'.activations[a].pc.Moving?
  {
    StepTouches(s, t, action);
    hide Inv, Advance, Unwind;
    if IsTop(s, t, a) {
      AdvancePast(s, t);
      UnwindPast(s, t);
    }
  }

  lemma MoverThrows(s: State, t: Thread, a: nat)
    requires Inv(s) && Running(s, t) && Top(s, t) == a && s.activations[a].pc.Moving?
    ensures var s' := Step(s, t, Throw);
            && a < |s'.activations| && s'.activations[a].thread == s.activations[a].thread
            && s'.activations[a].pc != Wanting
            && (s'.activations[a].pc.Moving? ==> s' == s)
  {
    hide Acts, Locks, Memory, Stacks;
  }

  lemma OneStepOn(s: State, u: Thread, action: Action, a: nat, t: Thread, left: int, taken: nat)
    requires Inv(s) && OnItsWay(s, a, t, left, taken) && (u == t ==> !action.Begin?)
    ensures OnItsWay(Step(s, u, action), a, t, left, taken + if u == t && action == Proceed then 1 else 0)
  {
    hide Inv, Step;
    if u != t {
      OtherThreadStep(s, u, action, t);
    } else if !s.activations[a].pc.Moving? {
      PastMoving(s, t, action, a);
    } else if action == Proceed {
      MoverStep(s, t, a);
    } else {
      MoverThrows(s, t, a);
    }
  }

  lemma {:induction false} AllOnTheirWay(s: State, steps: Steps, a: nat, t: Thread, left: int)
    requires Inv(s) && OnItsWay(s, a, t, left, 0) && StartsNothing(steps, t)
    ensures OnItsWay(RunFrom(s, steps), a, t, left, Proceeds(steps, t))
    decreases |steps|
  {
    hide Inv, Step, OnItsWay;
    if steps != [] {
      var before := steps[..|steps| - 1];
      RunFromInv(s, before);
      AllOnTheirWay(s, before, a, t, left);
      OneStepOn(RunFrom(s, before), steps[|steps| - 1].0, steps[|steps| - 1].1, a, t, left, Proceeds(before, t));
    }
  }

  lemma LeftBound(s: State, a: nat)
    requires Inv(s) && a < |s.activations| && s.activations[a].pc.Moving?
    ensures 1 <= Left(s.activations[a].pc) <= 2 * SLOTS + 1
  {
    assert ActOk(s.activations[a], s.history, s.current);
  }

  lemma Arrived(s: State, a: nat, t: Thread, taken: nat)
    requires Inv(s) && OnItsWay(s, a, t, 2 * SLOTS + 1, taken) && taken >= 2 * SLOTS + 1
    ensures s.holder != Some(a)
  {
    hide Acts, Stacks;
    if s.activations[a].pc.Moving? {
      LeftBound(s, a);
    }
  }

  lemma SetsOut(s: State, a: nat)
    requires Inv(s) && s.holder == Some(a) && a < |s.activations|
    requires Stack(s, s.activations[a].thread) != [] && Top(s, s.activations[a].thread) == a
    ensures OnItsWay(s, a, s.activations[a].thread, 2 * SLOTS + 1, 0)
  {
    hide Acts, Stacks;
    LeftBound(s, a);
  }

  /** The mutex never stays taken by code that does not enter the receiver again: whatever the other threads
      do in between, after at most 27 steps of its own the holder has released it. */
  lemma HolderReleases(initial: CallbackSet, steps: Steps, more: Steps, a: nat)
    requires var s := Run(initial, steps);
             && s.holder == Some(a) && a < |s.activations|
             && var t := s.activations[a].thread;
             && Stack(s, t) != [] && Top(s, t) == a
             && StartsNothing(more, t) && Proceeds(more, t) >= 2 * SLOTS + 1
    ensures Run(initial, steps + more).holder != Some(a)
  {
    RunInv(initial, steps);
    RunInv(initial, steps + more);
    RunAppend(Init(initial), steps, more);
    var s := Run(initial, steps);
    var t := s.activations[a].thread;
    hide RunFrom, Inv, StartsNothing, OnItsWay, Stack;
    SetsOut(s, a);
    AllOnTheirWay(s, more, a, t, 2 * SLOTS + 1);
    Arrived(Run(initial, steps + more), a, t, Proceeds(more, t));
  }

  // Entering the receiver from copy or destroy code

  /** Activation a holds the mutex and b, above it on the same stack, waits for it. */
  predicate Stuck(s: State, a: nat, b: nat) {
    && s.holder == Some(a) && a < |s.activations| && b < |s.activations|
    && s.activations[b].pc == Wanting && s.activations[b].thread == s.activations[a].thread
    && Stack(s, s.activations[a].thread) != [] && Top(s, s.activations[a].thread) == b
  }

  lemma StaysStuck(s: State, u: Thread, action: Action, a: nat, b: nat)
    requires Inv(s) && Stuck(s, a, b)
    ensures Stuck(Step(s, u, action), a, b)
  {
    var t := s.activations[a].thread;
    if u != t {
      OtherThreadStep(s, u, action, t);
      OtherThreadHolder(s, u, action, a);
      hide Inv, Step;
    } else {
      hide Inv;
    }
  }

  lemma OtherThreadHolder(s: State, u: Thread, action: Action, a: nat)
    requires Inv(s) && s.holder == Some(a) && a < |s.activations| && s.activations[a].thread != u
    ensures Step(s, u, action).holder == Some(a)
  {
    if Stack(s, u) != [] {
      TopIsOk(s, u);
    }
    hide Inv, SpecificCallback, ActOk;
  }

  /** Copy or destroy code that calls SetCallbacks or Dispatch on its own receiver never comes back, and
      neither does any later call that needs the mutex: whatever anybody does, it stays taken. */
  lemma {:induction false} ReentryDeadlocks(initial: CallbackSet, steps: Steps, more: Steps, a: nat, b: nat)
    requires Stuck(Run(initial, steps), a, b)
    ensures Stuck(Run(initial, steps + more), a, b)
    decreases |more|
  {
    hide Run, RunFrom, Step, Stuck;
    if more == [] {
      assert steps + more == steps;
    } else {
      var before := more[..|more| - 1];
      ReentryDeadlocks(initial, steps, before, a, b);
      RunInv(initial, steps + before);
      RunStep(initial, steps + before, more[|more| - 1]);
      assert steps + more == steps + before + [more[|more| - 1]];
      StaysStuck(Run(initial, steps + before), more[|more| - 1].0, more[|more| - 1].1, a, b);
    }
  }

  lemma RunStep(initial: CallbackSet, steps: Steps, step: (Thread, Action))
    ensures Run(initial, steps + [step]) == Step(Run(initial, steps), step.0, step.1)
  {
    hide Step;
    assert (steps + [step])[..|steps|] == steps;
  }

  /** It comes about exactly when application code that runs while slots are moved starts an operation. */
  lemma ReentryStarts(s: State, t: Thread, op: Operation)
    requires Inv(s) && Running(s, t) && InUserCode(s.activations[Top(s, t)].pc)
    ensures Stuck(Step(s, t, Begin(op)), Top(s, t), |s.activations|) <==> s.activations[Top(s, t)].pc.Moving?
  {
    TopIsOk(s, t);
    hide Inv, ActOk;
  }

  lemma FirstSteps(initial: CallbackSet, event: string)
    requires initial[0].Some?
    ensures var s1 := Step(Init(initial), 0, Begin(Dispatching(event)));
            var s2 := Step(s1, 0, Proceed);
            var s3 := Step(s2, 0, Proceed);
            && s3.holder == Some(0) && Stack(s3, 0) == [0] && |s3.activations| == 1
            && s3.activations[0].thread == 0 && s3.activations[0].pc == Moving(0, true)
  {
    hide SpecificCallback;
    var s1 := Step(Init(initial), 0, Begin(Dispatching(event)));
    assert s1.activations == [Activation(0, Dispatching(event), Wanting, [], [], 0, 0, 0)] && Stack(s1, 0) == [0];
    var s2 := Step(s1, 0, Proceed);
    assert s2.activations[0].pc == Moving(0, false) && Stack(s2, 0) == [0] && s2.current == initial;
  }

  lemma FourSteps(initial: CallbackSet, a: (Thread, Action), b: (Thread, Action), c: (Thread, Action),
                  d: (Thread, Action))
    ensures Run(initial, [a, b, c, d])
            == Step(Step(Step(Step(Init(initial), a.0, a.1), b.0, b.1), c.0, c.1), d.0, d.1)
  {
    NoSteps(initial);
    hide Run, Step;
    assert [] + [a] == [a] && [a] + [b] == [a, b] && [a, b] + [c] == [a, b, c] && [a, b, c] + [d] == [a, b, c, d];
    RunStep(initial, [], a);
    RunStep(initial, [a], b);
    RunStep(initial, [a, b], c);
    RunStep(initial, [a, b, c], d);
  }

  /** Such code does run: three steps into the first dispatch, when on_event is set. */
  lemma CopyRunsUnderLock(initial: CallbackSet, event: string, op: Operation)
    requires initial[0].Some?
    ensures Stuck(Run(initial, [(0, Begin(Dispatching(event))), (0, Proceed), (0, Proceed), (0, Begin(op))]), 0, 1)
  {
    var steps: Steps := [(0, Begin(Dispatching(event))), (0, Proceed), (0, Proceed)];
    FirstSteps(initial, event);
    FourSteps(initial, steps[0], steps[1], steps[2], (0, Begin(op)));
    hide Run, Advance, Unwind;
  }

  lemma NoSteps(initial: CallbackSet)
    ensures Run(initial, []) == Init(initial)
  {
  }

  // What later steps leave alone

  /** s comes after m: sets are only added, what has finished stays as it is, and what has begun since
      began with a set installed since. */
  ghost predicate Since(m: State, s: State) {
    && m.history <= s.history && |m.activations| <= |s.activations|
    && (forall a :: 0 <= a < |m.activations| && Finished(m.activations[a].pc) ==> s.activations[a] == m.activations[a])
    && (forall a :: |m.activations| <= a < |s.activations| ==> Version(m) <= s.activations[a].begun)
  }

  /** An activation that has finished is on no stack. */
  lemma FinishedStays(s: State, t: Thread, action: Action, a: nat)
    requires Inv(s) && a < |s.activations| && Finished(s.activations[a].pc)
    ensures a < |Step(s, t, action).activations| && Step(s, t, action).activations[a] == s.activations[a]
  {
    StepTouches(s, t, action);
    hide Step, StackOk;
    if Stack(s, t) != [] {
      TopFacts(s, t);
    }
  }

  lemma SinceStep(m: State, s: State, t: Thread, action: Action)
    requires Inv(s) && Since(m, s)
    ensures Since(m, Step(s, t, action))
  {
    StepTouches(s, t, action);
    hide Inv, Step;
    var s' := Step(s, t, action);
    forall a | 0 <= a < |m.activations| && Finished(m.activations[a].pc)
      ensures s'.activations[a] == m.activations[a]
    {
      FinishedStays(s, t, action, a);
    }
  }

  lemma {:induction false} SinceRun(initial: CallbackSet, steps: Steps, k: nat)
    requires k <= |steps|
    ensures Since(Run(initial, steps[..k]), Run(initial, steps))
    decreases |steps|
  {
    hide RunFrom, Run, Step;
    if k == |steps| {
      assert steps[..k] == steps;
    } else {
      var before, step := steps[..|steps| - 1], steps[|steps| - 1];
      assert before[..k] == steps[..k] && before + [step] == steps;
      SinceRun(initial, before, k);
      RunInv(initial, before);
      RunStep(initial, before, step);
      hide Since;
      SinceStep(Run(initial, steps[..k]), Run(initial, before), step.0, step.1);
    }
  }

  lemma InstalledOk(act: Activation, h: History, current: CallbackSet)
    requires ActOk(act, h, current) && act.op.Setting? && act.pc == Returned
    ensures act.version < |h| && h[act.version] == act.op.callbacks
  {
    hide Torn;
  }

  lemma CopiedOk(act: Activation, event: string, h: History, current: CallbackSet)
    requires ActOk(act, h, current) && act.op == Dispatching(event) && Finished(act.pc)
    ensures act.begun <= act.version
  {
    hide OnEvent, Specific, SpecificCallback;
  }

  /** Replacing callbacks takes effect: SetCallbacks has installed its whole set when it returns, and a
      dispatch that begins after that step copies this set or one installed later. */
  lemma LaterDispatchSeesIt(initial: CallbackSet, steps: Steps, k: nat, setter: nat, dispatch: nat)
    requires k <= |steps|
    requires var m := Run(initial, steps[..k]);
             && setter < |m.activations| <= dispatch
             && m.activations[setter].op.Setting? && m.activations[setter].pc == Returned
    requires var s := Run(initial, steps);
             && dispatch < |s.activations|
             && s.activations[dispatch].op.Dispatching? && Finished(s.activations[dispatch].pc)
    ensures var s := Run(initial, steps);
            && s.activations[setter].version < |s.history|
            && s.history[s.activations[setter].version] == Run(initial, steps[..k]).activations[setter].op.callbacks
            && s.activations[setter].version <= s.activations[dispatch].version
  {
    hide Run, RunFrom, ActOk, Stacks, Locks, Memory;
    var m, s := Run(initial, steps[..k]), Run(initial, steps);
    RunInv(initial, steps[..k]);
    RunInv(initial, steps);
    SinceRun(initial, steps, k);
    InstalledOk(m.activations[setter], m.history, m.current);
    CopiedOk(s.activations[dispatch], s.activations[dispatch].op.event, s.history, s.current);
  }
}
