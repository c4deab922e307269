// The pool of standby worker threads: claim, release and dispose as atomic updates of one slot list,
// interleaved in any order with each other and with threads dying.
module StandbyPool {
  import opened FiniteSets
  import opened Wrappers

  type Thread = nat

  // A variable may be present without a value.
  type Env = map<string, Option<string>>

  datatype Launch = Launch(project: nat, env: Env, execArgv: seq<string>)

  datatype SlotState = Spare | Claimed | Stopped

  datatype Slot = Slot(launch: Launch, thread: Thread, state: SlotState)

  // ---- Matching a request ----

  function ValueOf(env: Env, name: string): Option<string> {
    if name in env then env[name] else None
  }

  predicate SameEnv(left: Env, right: Env) {
    |left| == |right| && forall name <- left :: ValueOf(left, name) == ValueOf(right, name)
  }

  predicate SameThreadRequest(launch: Launch, options: Launch) {
    launch.project == options.project && SameEnv(launch.env, options.env) && launch.execArgv == options.execArgv
  }

  predicate Valued(env: Env) {
    forall name <- env :: env[name].Some?
  }

  /** The pool's comparison is equality for exactly the environments without valueless variables. */
  lemma SameEnvIsEqualityIffValued(left: Env)
    ensures (forall right: Env :: SameEnv(left, right) ==> left == right) <==> Valued(left)
  {
    if Valued(left) {
      forall right: Env | SameEnv(left, right) ensures left == right {
        assert forall name <- left :: name in right;
        SameSize(left.Keys, right.Keys);
      }
    } else {
      var name :| name in left && left[name].None?;
      var other := FreshName(left.Keys);
      var right := (left - {name})[other := Some("")];
      assert right.Keys == left.Keys - {name} + {other};
      assert |right| == |left|;
      assert SameEnv(left, right) && left != right;
    }
  }

  lemma FreshName(names: set<string>) returns (other: string)
    ensures other !in names
  {
    var n := LongerThan(names);
    other := seq(n, i => 'a');
  }

  lemma {:induction false} LongerThan(names: set<string>) returns (n: nat)
    ensures forall name <- names :: |name| < n
  {
    if names == {} {
      n := 0;
    } else {
      var name :| name in names;
      var m := LongerThan(names - {name});
      n := if m <= |name| then |name| + 1 else m;
      assert forall other <- names :: other == name || other in names - {name};
    }
  }

  // ---- The atomic updates ----

  predicate KeepsSlot(slot: Slot, dead: set<Thread>) {
    !slot.state.Stopped? && slot.thread !in dead
  }

  predicate ReusesThread(slot: Slot, dead: set<Thread>, options: Launch) {
    slot.state.Spare? && slot.thread !in dead && SameThreadRequest(slot.launch, options)
  }

  function Kept(slots: seq<Slot>, dead: set<Thread>): seq<Slot> {
    if slots == [] then []
    else (if KeepsSlot(slots[0], dead) then [slots[0]] else []) + Kept(slots[1..], dead)
  }

  function SpareFor(slots: seq<Slot>, dead: set<Thread>, options: Launch): (at: Option<nat>)
    ensures at.Some? ==> at.value < |slots| && ReusesThread(slots[at.value], dead, options)
  {
    if slots == [] then None
    else if ReusesThread(slots[0], dead, options) then Some(0)
    else var at := SpareFor(slots[1..], dead, options); if at.Some? then Some(at.value + 1) else None
  }

  // The slots after a claim looked for a spare thread, and the thread it took.
  function Taken(slots: seq<Slot>, dead: set<Thread>, options: Launch): (seq<Slot>, Option<Thread>) {
    var live := Kept(slots, dead);
    var at := SpareFor(live, dead, options);
    if at.None? then (live, None)
    else (live[at.value := live[at.value].(state := Claimed)], Some(live[at.value].thread))
  }

  function Released(slots: seq<Slot>, thread: Thread): seq<Slot> {
    seq(|slots|, i requires 0 <= i < |slots| =>
      if slots[i].thread == thread then slots[i].(state := Stopped) else slots[i])
  }

  function AllStopped(slots: seq<Slot>): seq<Slot> {
    seq(|slots|, i requires 0 <= i < |slots| => slots[i].(state := Stopped))
  }

  // A spare and live slot, launched for the request's project with its arguments and as many variables, each with the
  // value the request gives it.
  ghost predicate LaunchedFor(slot: Slot, dead: set<Thread>, options: Launch) {
    && slot.state == Spare && slot.thread !in dead
    && slot.launch.project == options.project && slot.launch.execArgv == options.execArgv
    && |slot.launch.env| == |options.env|
    && forall name <- slot.launch.env ::
         slot.launch.env[name] == if name in options.env then options.env[name] else None
  }

  // A slot that fits and is live outlives the filter, and the search finds one when there is one.
  lemma {:induction false} FitIsKept(slots: seq<Slot>, dead: set<Thread>, slot: Slot)
    requires slot in slots && KeepsSlot(slot, dead)
    ensures slot in Kept(slots, dead)
  {
    if slot != slots[0] {
      FitIsKept(slots[1..], dead, slot);
    }
  }

  lemma {:induction false} SearchFindsFit(slots: seq<Slot>, dead: set<Thread>, options: Launch, slot: Slot)
    requires slot in slots && ReusesThread(slot, dead, options)
    ensures SpareFor(slots, dead, options).Some?
  {
    if slot != slots[0] {
      SearchFindsFit(slots[1..], dead, options, slot);
    }
  }

  lemma {:induction false} KeptFirst(slots: seq<Slot>, dead: set<Thread>)
    requires slots != []
    ensures Kept(slots, dead) == (if KeepsSlot(slots[0], dead) then [slots[0]] else []) + Kept(slots[1..], dead)
  {
  }

  lemma {:induction false} KeptInParts(a: seq<Slot>, b: seq<Slot>, dead: set<Thread>)
    ensures Kept(a + b, dead) == Kept(a, dead) + Kept(b, dead)
  {
    if a == [] {
      assert a + b == b;
    } else {
      assert (a + b)[0] == a[0] && (a + b)[1..] == a[1..] + b;
      KeptInParts(a[1..], b, dead);
      KeptFirst(a, dead);
      KeptFirst(a + b, dead);
    }
  }

  /** A look drops the slots that are stopped or whose thread is dead, and keeps the others in order. */
  lemma {:induction false} LiveSlotsAreKept(before: seq<Slot>, slot: Slot, after: seq<Slot>, dead: set<Thread>)
    ensures Kept([], dead) == []
    ensures Kept(before + ([slot] + after), dead)
      == Kept(before, dead)
         + ((if slot.state == Stopped || slot.thread in dead then [] else [slot]) + Kept(after, dead))
  {
    KeptInParts(before, [slot] + after, dead);
    assert ([slot] + after)[1..] == after;
  }

  // Of the slots kept, the search gives the first that fits.
  lemma {:induction false} SearchFindsFirst(slots: seq<Slot>, dead: set<Thread>, options: Launch)
    ensures
      var at := SpareFor(slots, dead, options);
      forall j :: 0 <= j < |slots| && LaunchedFor(slots[j], dead, options) ==> at.Some? && at.value <= j
  {
    if slots != [] {
      SearchFindsFirst(slots[1..], dead, options);
      forall j | 0 <= j < |slots| && LaunchedFor(slots[j], dead, options)
        ensures SpareFor(slots, dead, options).Some? && SpareFor(slots, dead, options).value <= j
      {
        assert j > 0 ==> slots[1..][j - 1] == slots[j];
      }
    }
  }

  // What the filter keeps is in the same order, a slot before it dropped or kept before it.
  lemma {:induction false} KeptInOrder(slots: seq<Slot>, dead: set<Thread>, i: nat) returns (k: nat)
    requires i < |slots| && KeepsSlot(slots[i], dead)
    ensures k < |Kept(slots, dead)| && Kept(slots, dead)[k] == slots[i]
    ensures forall l :: 0 <= l < k ==> exists j :: 0 <= j < i && slots[j] == Kept(slots, dead)[l]
  {
    if i == 0 {
      k := 0;
    } else {
      var rest := KeptInOrder(slots[1..], dead, i - 1);
      var own := if KeepsSlot(slots[0], dead) then 1 else 0;
      k := rest + own;
      forall l | 0 <= l < k ensures exists j :: 0 <= j < i && slots[j] == Kept(slots, dead)[l] {
        if l >= own {
          assert Kept(slots, dead)[l] == Kept(slots[1..], dead)[l - own] && 0 <= l - own < rest;
          var j :| 0 <= j < i - 1 && slots[1..][j] == Kept(slots[1..], dead)[l - own];
          assert slots[j + 1] == Kept(slots, dead)[l];
        } else {
          assert slots[0] == Kept(slots, dead)[0];
        }
      }
    }
  }

  /** A claim takes the thread of the first spare and live slot launched for its request. */
  lemma TakesTheFirst(slots: seq<Slot>, dead: set<Thread>, options: Launch, i: nat)
    requires i < |slots| && LaunchedFor(slots[i], dead, options)
    requires forall j :: 0 <= j < i ==> !LaunchedFor(slots[j], dead, options)
    ensures Taken(slots, dead, options).1 == Some(slots[i].thread)
  {
    var live := Kept(slots, dead);
    var k := KeptInOrder(slots, dead, i);
    SearchFindsFirst(live, dead, options);
    forall l | 0 <= l < k ensures !LaunchedFor(live[l], dead, options) {
      var j :| 0 <= j < i && slots[j] == live[l];
    }
    assert LaunchedFor(live[SpareFor(live, dead, options).value], dead, options);
  }

  /** A claim spawns a thread only when no spare and live slot was launched for its request. */
  lemma ReusesWhenItCan(slots: seq<Slot>, dead: set<Thread>, options: Launch)
    ensures Taken(slots, dead, options).1.None? <==> forall slot <- slots :: !LaunchedFor(slot, dead, options)
  {
    if slot :| slot in slots && LaunchedFor(slot, dead, options) {
      assert ReusesThread(slot, dead, options);
    }
    if slot :| slot in slots && ReusesThread(slot, dead, options) {
      FitIsKept(slots, dead, slot);
      SearchFindsFit(Kept(slots, dead), dead, options, slot);
    }
    if Taken(slots, dead, options).1.Some? {
      KeptElements(slots, dead);
      var at := SpareFor(Kept(slots, dead), dead, options).value;
      assert Kept(slots, dead)[at] in slots;
    }
  }

  // A thread none of whose slots is spare is not taken.
  lemma NoneFits(slots: seq<Slot>, dead: set<Thread>, options: Launch, thread: Thread)
    requires forall slot <- slots :: slot.thread == thread ==> !slot.state.Spare?
    ensures Taken(slots, dead, options).1 != Some(thread)
  {
    KeptElements(slots, dead);
    var live := Kept(slots, dead);
    if SpareFor(live, dead, options).Some? {
      assert live[SpareFor(live, dead, options).value] in live;
    }
  }

  lemma {:induction false} StoppedAreDropped(slots: seq<Slot>, dead: set<Thread>)
    requires forall slot <- slots :: slot.state.Stopped?
    ensures Kept(slots, dead) == []
  {
    if slots != [] {
      StoppedAreDropped(slots[1..], dead);
    }
  }

  // The pool itself: each method is one atomic update of the shared list.
  class Pool {
    var slots: seq<Slot>

    constructor ()
      ensures slots == []
    {
      slots := [];
    }

    method TakeSpare(dead: set<Thread>, options: Launch) returns (reused: Option<Thread>)
      modifies this
      ensures (slots, reused) == Taken(old(slots), dead, options)
      ensures reused.None? <==> forall slot <- old(slots) :: !LaunchedFor(slot, dead, options)
    {
      ReusesWhenItCan(slots, dead, options);
      var taken := Taken(slots, dead, options);
      slots, reused := taken.0, taken.1;
    }

    method Register(slot: Slot)
      modifies this
      ensures slots == old(slots) + [slot]
      ensures forall dead, options :: LaunchedFor(slot, dead, options) ==> Taken(slots, dead, options).1.Some?
    {
      slots := slots + [slot];
      forall dead, options | LaunchedFor(slot, dead, options) ensures Taken(slots, dead, options).1.Some? {
        ReusesWhenItCan(slots, dead, options);
        assert slots[|slots| - 1] == slot;
      }
    }

    method Release(thread: Thread)
      modifies this
      ensures slots == Released(old(slots), thread)
      ensures forall dead, options :: Taken(slots, dead, options).1 != Some(thread)
    {
      slots := Released(slots, thread);
      forall dead, options ensures Taken(slots, dead, options).1 != Some(thread) {
        NoneFits(slots, dead, options, thread);
      }
    }

    method StopAll()
      modifies this
      ensures slots == AllStopped(old(slots))
      ensures forall dead, options :: Taken(slots, dead, options) == ([], None)
    {
      slots := AllStopped(slots);
      forall dead, options ensures Taken(slots, dead, options) == ([], None) {
        StoppedAreDropped(slots, dead);
      }
    }
  }

  // ---- Interleavings ----

  // How far one claim got. Between its atomic updates it holds a slot it has spawned but not registered.
  datatype Claim =
    | Looking(options: Launch)
    | Spawned(options: Launch, slot: Slot)
    | Holding(options: Launch, thread: Thread)
    | Refilling(options: Launch, thread: Thread, spare: Slot)
    | Returned(options: Launch, thread: Thread)
  {
    function Thread(): Option<Thread> {
      match this
      case Looking(_) => None
      case Spawned(_, slot) => Some(slot.thread)
      case Holding(_, t) => Some(t)
      case Refilling(_, t, _) => Some(t)
      case Returned(_, t) => Some(t)
    }

    function Unregistered(): Option<Slot> {
      match this
      case Spawned(_, slot) => Some(slot)
      case Refilling(_, _, spare) => Some(spare)
      case _ => None
    }
  }

  datatype State = State(slots: seq<Slot>, claims: seq<Claim>, next: Thread, dead: set<Thread>)

  datatype Event =
    | Look(options: Launch)          // a claim's first update
    | Advance(claim: nat)            // the next step of a claim
    | Release(released: Thread)
    | Dispose
    | Die(dying: Thread)

  // What a claim does next: spawn and register its own thread if it found none, then spawn and register a spare.
  function Advanced(s: State, k: nat): State
    requires k < |s.claims|
  {
    match s.claims[k]
    case Looking(options) =>
      s.(claims := s.claims[k := Spawned(options, Slot(options, s.next, Claimed))], next := s.next + 1)
    case Spawned(options, slot) =>
      s.(claims := s.claims[k := Holding(options, slot.thread)], slots := s.slots + [slot])
    case Holding(options, t) =>
      s.(claims := s.claims[k := Refilling(options, t, Slot(options, s.next, Spare))], next := s.next + 1)
    case Refilling(options, t, spare) =>
      s.(claims := s.claims[k := Returned(options, t)], slots := s.slots + [spare])
    case Returned(_, _) => s
  }

  function Looked(s: State, options: Launch): State {
    var taken := Taken(s.slots, s.dead, options);
    var claim := if taken.1.Some? then Holding(options, taken.1.value) else Looking(options);
    s.(slots := taken.0, claims := s.claims + [claim])
  }

  function Step(s: State, e: Event): State {
    match e
    case Look(options) => Looked(s, options)
    case Advance(k) => if k < |s.claims| then Advanced(s, k) else s
    case Release(t) => s.(slots := Released(s.slots, t))
    case Dispose => s.(slots := AllStopped(s.slots))
    case Die(t) => s.(dead := s.dead + {t})
  }

  function Run(s: State, es: seq<Event>): State
    decreases es
  {
    if es == [] then s else Run(Step(s, es[0]), es[1..])
  }

  function Empty(): State {
    State([], [], 0, {})
  }

  // ---- What the updates do to the list ----

  ghost predicate Apart(slots: seq<Slot>) {
    forall i, j :: 0 <= i < j < |slots| ==> slots[i].thread != slots[j].thread
  }

  lemma {:induction false} KeptElements(slots: seq<Slot>, dead: set<Thread>)
    ensures forall slot <- Kept(slots, dead) :: slot in slots && KeepsSlot(slot, dead)
  {
    if slots != [] {
      KeptElements(slots[1..], dead);
    }
  }

  lemma {:induction false} KeptApart(slots: seq<Slot>, dead: set<Thread>)
    requires Apart(slots)
    ensures Apart(Kept(slots, dead))
  {
    if slots != [] {
      KeptApart(slots[1..], dead);
      KeptElements(slots[1..], dead);
      var rest := Kept(slots[1..], dead);
      forall j | 0 <= j < |rest| ensures rest[j].thread != slots[0].thread {
        assert rest[j] in rest && rest[j] in slots[1..];
        var k :| 0 <= k < |slots[1..]| && slots[1..][k] == rest[j];
        assert slots[k + 1] == rest[j];
      }
    }
  }

  // A slot after a claim's look: one that was there, or the one taken, which was spare.
  ghost predicate WasThere(slot: Slot, slots: seq<Slot>, taken: Option<Thread>) {
    if taken == Some(slot.thread) then slot.state.Claimed? && slot.(state := Spare) in slots else slot in slots
  }

  /** A thread a claim reuses was spare and live at that moment, and was launched for the same project, with the same
      arguments, and with as many variables, each with the value the request gives it. */
  lemma TakenFits(slots: seq<Slot>, dead: set<Thread>, options: Launch)
    requires Taken(slots, dead, options).1.Some?
    ensures var t := Taken(slots, dead, options).1.value;
      exists slot <- slots :: slot.thread == t && LaunchedFor(slot, dead, options)
  {
    KeptElements(slots, dead);
    var live := Kept(slots, dead);
    var at := SpareFor(live, dead, options).value;
    assert live[at] in live;
  }

  lemma TakenElements(slots: seq<Slot>, dead: set<Thread>, options: Launch)
    requires Apart(slots)
    ensures Apart(Taken(slots, dead, options).0)
    ensures forall slot <- Taken(slots, dead, options).0 :: WasThere(slot, slots, Taken(slots, dead, options).1)
  {
    KeptElements(slots, dead);
    KeptApart(slots, dead);
    var live := Kept(slots, dead);
    var at := SpareFor(live, dead, options);
    var slots', taken := Taken(slots, dead, options).0, Taken(slots, dead, options).1;
    forall i | 0 <= i < |slots'| ensures WasThere(slots'[i], slots, taken) {
      assert live[i] in live;
      if at.Some? && i == at.value {
        assert slots'[i].(state := Spare) == live[i];
      }
    }
  }

  // ---- The invariant ----

  // No two slots, registered or not, and no two claims share a thread, and threads are spawned in order.
  ghost predicate Threads(s: State) {
    && Apart(s.slots)
    && (forall slot <- s.slots :: slot.thread < s.next)
    && (forall c <- s.claims :: c.Thread().Some? ==> c.Thread().value < s.next)
    && (forall c <- s.claims :: c.Unregistered().Some? ==> c.Unregistered().value.thread < s.next)
    && (forall c <- s.claims, slot <- s.slots :: c.Unregistered().Some? ==>
      slot.thread != c.Unregistered().value.thread)
  }

  ghost predicate DifferentThreads(c: Claim, d: Claim) {
    && (c.Thread().Some? ==> c.Thread() != d.Thread())
    && (c.Unregistered().Some? && d.Unregistered().Some? ==>
      c.Unregistered().value.thread != d.Unregistered().value.thread)
    && (d.Refilling? ==> c.Thread() != Some(d.spare.thread))
    && (c.Refilling? ==> d.Thread() != Some(c.spare.thread))
  }

  // A thread some claim took is spare nowhere, and no other claim took it.
  ghost predicate Taking(s: State) {
    && (forall k, l :: 0 <= k < l < |s.claims| ==> DifferentThreads(s.claims[k], s.claims[l]))
    && (forall c <- s.claims, slot <- s.slots :: c.Thread() == Some(slot.thread) ==> !slot.state.Spare?)
    && (forall c <- s.claims :: (c.Refilling? ==> c.thread != c.spare.thread) && (c.Spawned? ==> c.slot.state.Claimed?))
  }

  ghost predicate Inv(s: State) {
    Threads(s) && Taking(s)
  }

  // Each slot after a look was there before it with the same thread.
  lemma LookedSlots(s: State, options: Launch)
    requires Inv(s)
    ensures Apart(Looked(s, options).slots)
    ensures forall slot <- Looked(s, options).slots :: exists was <- s.slots ::
      was.thread == slot.thread
        && (if Taken(s.slots, s.dead, options).1 == Some(slot.thread) then slot.state.Claimed? else slot == was)
  {
    TakenElements(s.slots, s.dead, options);
    forall slot | slot in Looked(s, options).slots
      ensures exists was <- s.slots ::
        was.thread == slot.thread
          && (if Taken(s.slots, s.dead, options).1 == Some(slot.thread) then slot.state.Claimed? else slot == was)
    {
      assert WasThere(slot, s.slots, Taken(s.slots, s.dead, options).1);
    }
  }

  lemma LookKeepsThreads(s: State, options: Launch)
    requires Inv(s)
    ensures Threads(Looked(s, options))
  {
    LookedSlots(s, options);
    if Taken(s.slots, s.dead, options).1.Some? {
      TakenFits(s.slots, s.dead, options);
    }
    var s' := Looked(s, options);
    forall d | d in s'.claims ensures d in s.claims || d == s'.claims[|s.claims|] {}
  }

  lemma LookKeeps(s: State, options: Launch)
    requires Inv(s)
    ensures Inv(Looked(s, options))
  {
    LookedSlots(s, options);
    LookKeepsThreads(s, options);
    var s' := Looked(s, options);
    var c := s'.claims[|s.claims|];
    if Taken(s.slots, s.dead, options).1.Some? {
      TakenFits(s.slots, s.dead, options);
    }
    forall d | d in s'.claims ensures d in s.claims || d == c {}
    forall k | 0 <= k < |s.claims| ensures DifferentThreads(s.claims[k], c) {
      assert s.claims[k] in s.claims;
    }
  }

  // Only the state of slots changes, and never back to spare.
  ghost predicate OnlyStops(slots: seq<Slot>, slots': seq<Slot>) {
    && |slots'| == |slots|
    && forall i :: 0 <= i < |slots| ==> slots'[i] == slots[i] || slots'[i] == slots[i].(state := Stopped)
  }

  lemma StopKeeps(s: State, slots: seq<Slot>)
    requires Inv(s) && OnlyStops(s.slots, slots)
    ensures Inv(s.(slots := slots))
  {
    forall slot | slot in slots ensures exists was <- s.slots :: slot == was || slot == was.(state := Stopped) {
      var i :| 0 <= i < |slots| && slots[i] == slot;
      assert s.slots[i] in s.slots;
    }
  }

  lemma AdvanceKeepsUnregistered(s: State, k: nat)
    requires Inv(s) && k < |s.claims|
    ensures forall d <- Advanced(s, k).claims, slot <- Advanced(s, k).slots ::
      d.Unregistered().Some? ==> slot.thread != d.Unregistered().value.thread
  {
    var s' := Advanced(s, k);
    assert s.claims[k] in s.claims;
    forall j | 0 <= j < |s.claims| && j != k
      ensures s.claims[j] in s.claims && DifferentThreads(s.claims[j], s.claims[k])
    {
      Others(s, j, k);
    }
    forall d, slot | d in s'.claims && slot in s'.slots && d.Unregistered().Some?
      ensures slot.thread != d.Unregistered().value.thread
    {
      var j :| 0 <= j < |s'.claims| && s'.claims[j] == d;
    }
  }

  lemma AdvanceKeepsThreads(s: State, k: nat)
    requires Inv(s) && k < |s.claims|
    ensures Threads(Advanced(s, k))
  {
    AdvanceKeepsUnregistered(s, k);
    var s' := Advanced(s, k);
    assert s.claims[k] in s.claims;
    forall d | d in s'.claims ensures d in s.claims || d == s'.claims[k] {}
  }

  lemma Others(s: State, j: nat, k: nat)
    requires Taking(s) && j < |s.claims| && k < |s.claims| && j != k
    ensures DifferentThreads(s.claims[j], s.claims[k])
  {
    assert DifferentThreads(s.claims[if j < k then j else k], s.claims[if j < k then k else j]);
  }

  lemma AdvanceKeeps(s: State, k: nat)
    requires Inv(s) && k < |s.claims|
    ensures Inv(Advanced(s, k))
  {
    AdvanceKeepsThreads(s, k);
    var s' := Advanced(s, k);
    var c, c' := s.claims[k], s'.claims[k];
    assert c in s.claims;
    forall d | d in s'.claims ensures d in s.claims || d == c' {}
    forall slot | slot in s'.slots ensures slot in s.slots || c.Unregistered() == Some(slot) {}
    forall j | 0 <= j < |s.claims| && j != k
      ensures DifferentThreads(s.claims[j], c') && DifferentThreads(c', s.claims[j])
    {
      assert s.claims[j] in s.claims;
      Others(s, j, k);
    }
    AdvanceKeepsTaken(s, k);
  }

  lemma AdvanceKeepsTaken(s: State, k: nat)
    requires Inv(s) && k < |s.claims|
    ensures forall c <- Advanced(s, k).claims, slot <- Advanced(s, k).slots :: c.Thread() == Some(slot.thread) ==>
      !slot.state.Spare?
  {
    var s' := Advanced(s, k);
    var c, c' := s.claims[k], s'.claims[k];
    assert c in s.claims;
    forall j | 0 <= j < |s.claims| && j != k ensures s.claims[j] in s.claims && DifferentThreads(s.claims[j], c) {
      Others(s, j, k);
    }
    forall d, slot | d in s'.claims && slot in s'.slots && d.Thread() == Some(slot.thread) ensures !slot.state.Spare? {
      var j :| 0 <= j < |s'.claims| && s'.claims[j] == d;
    }
  }

  lemma StepKeeps(s: State, e: Event)
    requires Inv(s)
    ensures Inv(Step(s, e))
  {
    match e
    case Look(options) => LookKeeps(s, options);
    case Advance(k) => if k < |s.claims| { AdvanceKeeps(s, k); }
    case Release(t) => StopKeeps(s, Released(s.slots, t));
    case Dispose => StopKeeps(s, AllStopped(s.slots));
    case Die(t) =>
  }

  lemma {:induction false} RunKeeps(s: State, es: seq<Event>)
    requires Inv(s)
    ensures Inv(Run(s, es))
    decreases es
  {
    if es != [] {
      StepKeeps(s, es[0]);
      RunKeeps(Step(s, es[0]), es[1..]);
    }
  }

  /** However claims, releases, deaths and disposal interleave, no thread is handed out by two claims. */
  lemma {:induction false} NoThreadClaimedTwice(es: seq<Event>, k: nat, l: nat)
    requires k < l < |Run(Empty(), es).claims|
    requires Run(Empty(), es).claims[k].Thread().Some?
    ensures Run(Empty(), es).claims[k].Thread() != Run(Empty(), es).claims[l].Thread()
  {
    RunKeeps(Empty(), es);
    var s := Run(Empty(), es);
    assert DifferentThreads(s.claims[k], s.claims[l]);
  }

  // ---- How slots change over a run ----

  function Rank(state: SlotState): nat {
    match state
    case Spare => 0
    case Claimed => 1
    case Stopped => 2
  }

  // A thread's slot, or none.
  ghost predicate At(s: State, slot: Slot) {
    slot in s.slots || exists c <- s.claims :: c.Unregistered() == Some(slot)
  }

  ghost predicate CameFrom(s: State, slot': Slot) {
    exists slot :: At(s, slot) && MovedOn(slot, slot')
  }

  predicate MovedOn(slot: Slot, slot': Slot) {
    slot.thread == slot'.thread && slot.launch == slot'.launch && Rank(slot.state) <= Rank(slot'.state)
  }

  // A slot of the later state was a slot of the earlier one, further back on its way, or is of a new thread.
  ghost predicate Onward(s: State, s': State) {
    && s.next <= s'.next
    && forall slot' :: At(s', slot') && slot'.thread < s.next ==>
         CameFrom(s, slot')
  }

  lemma LookOnward(s: State, options: Launch)
    requires Inv(s)
    ensures Onward(s, Looked(s, options))
  {
    TakenElements(s.slots, s.dead, options);
    var s' := Looked(s, options);
    forall slot' | At(s', slot') ensures CameFrom(s, slot')
    {
      if slot' in s'.slots {
        assert WasThere(slot', s.slots, Taken(s.slots, s.dead, options).1);
        var was := if slot' in s.slots then slot' else slot'.(state := Spare);
        assert At(s, was) && MovedOn(was, slot');
      } else {
        var c :| c in s'.claims && c.Unregistered() == Some(slot');
        assert c in s.claims;
        assert At(s, slot') && MovedOn(slot', slot');
      }
    }
  }

  lemma StopOnward(s: State, slots: seq<Slot>)
    requires OnlyStops(s.slots, slots)
    ensures Onward(s, s.(slots := slots))
  {
    var s' := s.(slots := slots);
    forall slot' | At(s', slot') ensures CameFrom(s, slot')
    {
      if slot' in slots {
        var i :| 0 <= i < |slots| && slots[i] == slot';
        assert At(s, s.slots[i]) && MovedOn(s.slots[i], slot');
      } else {
        assert At(s, slot') && MovedOn(slot', slot');
      }
    }
  }

  lemma AdvanceOnward(s: State, k: nat)
    requires k < |s.claims|
    ensures Onward(s, Advanced(s, k))
  {
    var s' := Advanced(s, k);
    var c, c' := s.claims[k], s'.claims[k];
    assert c in s.claims;
    forall slot' | At(s', slot') && slot'.thread < s.next ensures At(s, slot') && MovedOn(slot', slot') {
      if slot' !in s'.slots {
        var d :| d in s'.claims && d.Unregistered() == Some(slot');
        assert d in s.claims || d == c';
      }
    }
  }

  lemma StepOnward(s: State, e: Event)
    requires Inv(s)
    ensures Onward(s, Step(s, e))
  {
    match e
    case Look(options) => LookOnward(s, options);
    case Advance(k) => if k < |s.claims| { AdvanceOnward(s, k); }
    case Release(t) => StopOnward(s, Released(s.slots, t));
    case Dispose => StopOnward(s, AllStopped(s.slots));
    case Die(t) => StopOnward(s, s.slots);
  }

  /** Over any run a thread's slot keeps its launch and only moves from spare to claimed to stopped; a slot
      that was dropped never comes back. */
  lemma {:induction false} SlotsOnlyMoveOn(s: State, es: seq<Event>)
    requires Inv(s)
    ensures Onward(s, Run(s, es))
    decreases es
  {
    if es == [] {
      StopOnward(s, s.slots);
    } else {
      var mid, last := Step(s, es[0]), Run(s, es);
      StepKeeps(s, es[0]);
      StepOnward(s, es[0]);
      SlotsOnlyMoveOn(mid, es[1..]);
      forall slot' | At(last, slot') && slot'.thread < s.next ensures CameFrom(s, slot')
      {
        var between :| At(mid, between) && MovedOn(between, slot');
        var slot :| At(s, slot) && MovedOn(slot, between);
        assert MovedOn(slot, slot');
      }
    }
  }

  // ---- Who holds a thread that is no longer spare ----

  // Neither the pool nor a claim about to register it keeps the thread as a spare.
  ghost predicate NeverSpare(s: State, t: Thread) {
    && t < s.next
    && (forall slot <- s.slots :: slot.thread == t ==> !slot.state.Spare?)
    && (forall c <- s.claims :: c.Unregistered().Some? && c.Unregistered().value.thread == t ==>
      !c.Unregistered().value.state.Spare?)
  }

  ghost predicate Holds(s: State, k: nat, t: Thread) {
    k < |s.claims| && s.claims[k].Thread() == Some(t)
  }

  lemma LookKeepsHolders(s: State, options: Launch, t: Thread)
    requires Inv(s) && NeverSpare(s, t)
    ensures NeverSpare(Looked(s, options), t) && forall k: nat :: Holds(Looked(s, options), k, t) <==> Holds(s, k, t)
  {
    var s' := Looked(s, options);
    LookedSlots(s, options);
    if Taken(s.slots, s.dead, options).1.Some? {
      TakenFits(s.slots, s.dead, options);
    }
    forall d | d in s'.claims ensures d in s.claims || d == s'.claims[|s.claims|] {}
  }

  lemma AdvanceKeepsHolders(s: State, k: nat, t: Thread)
    requires Inv(s) && NeverSpare(s, t) && k < |s.claims|
    ensures NeverSpare(Advanced(s, k), t) && forall j: nat :: Holds(Advanced(s, k), j, t) <==> Holds(s, j, t)
  {
    var s' := Advanced(s, k);
    assert s.claims[k] in s.claims;
    forall d | d in s'.claims ensures d in s.claims || d == s'.claims[k] {}
    forall slot | slot in s'.slots ensures slot in s.slots || s.claims[k].Unregistered() == Some(slot) {}
  }

  lemma StopKeepsHolders(s: State, slots: seq<Slot>, t: Thread)
    requires NeverSpare(s, t) && OnlyStops(s.slots, slots)
    ensures NeverSpare(s.(slots := slots), t)
  {
    forall slot | slot in slots && slot.thread == t ensures !slot.state.Spare? {
      var i :| 0 <= i < |slots| && slots[i] == slot;
      assert s.slots[i] in s.slots;
    }
  }

  lemma StepKeepsHolders(s: State, e: Event, t: Thread)
    requires Inv(s) && NeverSpare(s, t)
    ensures NeverSpare(Step(s, e), t) && forall k: nat :: Holds(Step(s, e), k, t) <==> Holds(s, k, t)
  {
    match e
    case Look(options) => LookKeepsHolders(s, options, t);
    case Advance(k) => if k < |s.claims| { AdvanceKeepsHolders(s, k, t); }
    case Release(r) => StopKeepsHolders(s, Released(s.slots, r), t);
    case Dispose => StopKeepsHolders(s, AllStopped(s.slots), t);
    case Die(_) =>
  }

  // Once a thread is not spare, whatever happens, the claims that hold it stay exactly the same.
  lemma {:induction false} HoldersAreSettled(s: State, es: seq<Event>, t: Thread)
    requires Inv(s) && NeverSpare(s, t)
    ensures forall k: nat :: Holds(Run(s, es), k, t) <==> Holds(s, k, t)
    decreases es
  {
    if es != [] {
      StepKeeps(s, es[0]);
      StepKeepsHolders(s, es[0], t);
      HoldersAreSettled(Step(s, es[0]), es[1..], t);
    }
  }

  // A registered slot's thread is registered once, so marking the slot is marking the thread.
  lemma StoppedIsNeverSpare(s: State, slot: Slot, slots: seq<Slot>)
    requires Inv(s) && slot in s.slots && OnlyStops(s.slots, slots)
    requires forall other <- slots :: other.thread == slot.thread ==> other.state.Stopped?
    ensures NeverSpare(s.(slots := slots), slot.thread)
  {
  }

  /** Whatever happens after disposal marked the slots stopped, the claims that hold the thread of a slot that was in
      the pool are exactly those that held it at that moment: no later claim is handed it. */
  lemma {:induction false} DisposedNeverReused(before: seq<Event>, after: seq<Event>, slot: Slot, k: nat)
    requires slot in Run(Empty(), before).slots
    ensures
      var disposed := Step(Run(Empty(), before), Dispose);
      Holds(Run(disposed, after), k, slot.thread) <==> Holds(disposed, k, slot.thread)
  {
    var start := Run(Empty(), before);
    RunKeeps(Empty(), before);
    StepKeeps(start, Dispose);
    StoppedIsNeverSpare(start, slot, AllStopped(start.slots));
    HoldersAreSettled(Step(start, Dispose), after, slot.thread);
  }

  /** Likewise after a release of the thread: no later claim is handed it. */
  lemma {:induction false} ReleasedNeverReused(before: seq<Event>, after: seq<Event>, slot: Slot, k: nat)
    requires slot in Run(Empty(), before).slots
    ensures
      var released := Step(Run(Empty(), before), Release(slot.thread));
      Holds(Run(released, after), k, slot.thread) <==> Holds(released, k, slot.thread)
  {
    var start := Run(Empty(), before);
    RunKeeps(Empty(), before);
    StepKeeps(start, Release(slot.thread));
    StoppedIsNeverSpare(start, slot, Released(start.slots, slot.thread));
    HoldersAreSettled(Step(start, Release(slot.thread)), after, slot.thread);
  }

  lemma LookKeepsDead(s: State, options: Launch, t: Thread)
    requires Inv(s) && t in s.dead && t < s.next
    ensures forall k: nat :: Holds(Looked(s, options), k, t) <==> Holds(s, k, t)
  {
    if Taken(s.slots, s.dead, options).1.Some? {
      TakenFits(s.slots, s.dead, options);
    }
  }

  // Once a thread died, the claims that hold it stay exactly the same.
  lemma {:induction false} DeadAreSettled(s: State, es: seq<Event>, t: Thread)
    requires Inv(s) && t in s.dead && t < s.next
    ensures forall k: nat :: Holds(Run(s, es), k, t) <==> Holds(s, k, t)
    decreases es
  {
    if es != [] {
      StepKeeps(s, es[0]);
      match es[0] {
        case Look(options) => LookKeepsDead(s, options, t);
        case _ =>
      }
      DeadAreSettled(Step(s, es[0]), es[1..], t);
    }
  }

  /** Whatever happens after a thread died, no later claim is handed it, whether or not its slot was registered. */
  lemma {:induction false} DeadNeverReused(before: seq<Event>, after: seq<Event>, t: Thread, k: nat)
    requires t < Run(Empty(), before).next
    ensures
      var died := Step(Run(Empty(), before), Die(t));
      Holds(Run(died, after), k, t) <==> Holds(died, k, t)
  {
    RunKeeps(Empty(), before);
    StepKeeps(Run(Empty(), before), Die(t));
    DeadAreSettled(Step(Run(Empty(), before), Die(t)), after, t);
  }

  /** A claim registers the slot it spawned behind every other, and leaves those as they are. */
  lemma RegistersLast(s: State, k: nat)
    requires k < |s.claims|
    ensures
      var slot := s.claims[k].Unregistered();
      Step(s, Advance(k)).slots == if slot.Some? then s.slots + [slot.value] else s.slots
  {
  }

  /** A release stops the slots of its thread and leaves every other slot as it was, in its place. */
  lemma ReleaseStopsItsSlots(s: State, t: Thread, i: nat)
    requires i < |s.slots|
    ensures
      var released := Step(s, Release(t)).slots;
      && |released| == |s.slots| && released[i].launch == s.slots[i].launch && released[i].thread == s.slots[i].thread
      && released[i].state == if s.slots[i].thread == t then Stopped else s.slots[i].state
  {
  }

  function FirstClaims(o: Launch): seq<Event> {
    [Look(o), Advance(0), Advance(0), Advance(0), Advance(0), Look(o)]
  }

  lemma SecondLookTakes(o: Launch)
    ensures
      Taken([Slot(o, 0, Claimed), Slot(o, 1, Spare)], {}, o) == ([Slot(o, 0, Claimed), Slot(o, 1, Claimed)], Some(1))
  {
    var slots := [Slot(o, 0, Claimed), Slot(o, 1, Spare)];
    assert slots[1..] == [Slot(o, 1, Spare)] && slots[1..][1..] == [];
    assert Kept(slots[1..], {}) == slots[1..];
    assert Kept(slots, {}) == [slots[0]] + slots[1..] == slots;
    assert SpareFor(slots[1..], {}, o) == Some(0);
    assert SpareFor(slots, {}, o) == Some(1);
    assert slots[1 := slots[1].(state := Claimed)] == [Slot(o, 0, Claimed), Slot(o, 1, Claimed)];
  }

  // A first claim spawns its thread and registers it.
  lemma FirstSpawns(o: Launch)
    ensures Step(Empty(), Look(o)) == State([], [Looking(o)], 0, {})
    ensures Step(State([], [Looking(o)], 0, {}), Advance(0)) == State([], [Spawned(o, Slot(o, 0, Claimed))], 1, {})
    ensures Step(State([], [Spawned(o, Slot(o, 0, Claimed))], 1, {}), Advance(0))
      == State([Slot(o, 0, Claimed)], [Holding(o, 0)], 1, {})
  {
    assert Kept([], {}) == [];
  }

  // Then it spawns a spare one and registers that.
  lemma FirstRefills(o: Launch)
    ensures Step(State([Slot(o, 0, Claimed)], [Holding(o, 0)], 1, {}), Advance(0))
      == State([Slot(o, 0, Claimed)], [Refilling(o, 0, Slot(o, 1, Spare))], 2, {})
    ensures Step(State([Slot(o, 0, Claimed)], [Refilling(o, 0, Slot(o, 1, Spare))], 2, {}), Advance(0))
      == State([Slot(o, 0, Claimed), Slot(o, 1, Spare)], [Returned(o, 0)], 2, {})
  {
  }

  lemma SecondClaimReuses(o: Launch)
    ensures Run(Empty(), FirstClaims(o))
      == State([Slot(o, 0, Claimed), Slot(o, 1, Claimed)], [Returned(o, 0), Holding(o, 1)], 2, {})
  {
    var s1 := State([], [Looking(o)], 0, {});
    var s2 := State([], [Spawned(o, Slot(o, 0, Claimed))], 1, {});
    var s3 := State([Slot(o, 0, Claimed)], [Holding(o, 0)], 1, {});
    var s4 := State([Slot(o, 0, Claimed)], [Refilling(o, 0, Slot(o, 1, Spare))], 2, {});
    var s5 := State([Slot(o, 0, Claimed), Slot(o, 1, Spare)], [Returned(o, 0)], 2, {});
    var s6 := State([Slot(o, 0, Claimed), Slot(o, 1, Claimed)], [Returned(o, 0), Holding(o, 1)], 2, {});
    FirstSpawns(o);
    FirstRefills(o);
    SecondLookTakes(o);
    assert Step(s5, Look(o)) == s6;
    StepsRun(Empty(), FirstClaims(o), [s1, s2, s3, s4, s5, s6]);
  }

  lemma {:induction false} StepsRun(s: State, es: seq<Event>, states: seq<State>)
    requires |states| == |es| > 0 && Step(s, es[0]) == states[0]
    requires forall i :: 0 < i < |es| ==> Step(states[i - 1], es[i]) == states[i]
    ensures Run(s, es) == states[|states| - 1]
    decreases es
  {
    if |es| > 1 {
      StepsRun(states[0], es[1..], states[1..]);
    }
  }

  /** A claim that took its thread before disposal does return it afterwards, although the slot was in the pool. */
  lemma InFlightClaimReturns(o: Launch)
    ensures
      var disposed := Step(Run(Empty(), FirstClaims(o)), Dispose);
      && Slot(o, 1, Claimed) in Run(Empty(), FirstClaims(o)).slots
      && disposed.claims == [Returned(o, 0), Holding(o, 1)]
      && Run(disposed, [Advance(1), Advance(1)]).claims == [Returned(o, 0), Returned(o, 1)]
  {
    SecondClaimReuses(o);
    var start := Run(Empty(), FirstClaims(o));
    var disposed := Step(start, Dispose);
    assert Slot(o, 1, Claimed) == start.slots[1];
    var s1, s2 := Step(disposed, Advance(1)), Step(Step(disposed, Advance(1)), Advance(1));
    StepsRun(disposed, [Advance(1), Advance(1)], [s1, s2]);
  }
}
