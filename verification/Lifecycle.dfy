/** The logic instance behind a streamed component: how it is made, swapped when the registry
    gets a new class, and told of its mounting and unmounting. */
module Lifecycle {
  import opened Options

  /** `Base` is StreamableLogic; its constructor does not throw. */
  datatype Class = Base | Author(name: nat)

  /** The state object of a logic instance, or none. */
  type State<V> = Option<map<string, V>>

  /** A logic instance; `id` is its identity. */
  datatype Logic<V> = Logic(id: nat, cls: Class, state: State<V>)

  /** A registry entry. */
  datatype Entry = Entry(logic: Option<Class>, ver: nat, tpl: bool)

  /** The calls a logic instance gets. */
  datatype Hook = DidMount(id: nat) | DidUpdate(id: nat) | WillUnmount(id: nat)

  /** What a constructor call gives: the new instance's initial state, or an exception. */
  datatype Construction<V> = Threw | Built(state: State<V>)

  /** What React does to a component. A bump of the registry shows in the next render's entry. */
  datatype Event<P, V> =
    | Render(entry: Entry, props: P, failing: bool, construction: Construction<V>)
    | CommitMount
    | CommitUpdate(failing: bool, tpl: bool)
    | Unmount
    | SetState(patch: map<string, V>)

  datatype Phase = Fresh | Mounted | Gone

  /** A component: its fields, the calls made so far, and where React has it. */
  datatype Component<P, V> = Component(
    logic: Logic<V>,
    needsDidMount: bool,
    failedLogic: Option<Class>,
    failedProps: Option<P>,
    failedVer: int,
    made: nat,
    calls: seq<Hook>,
    phase: Phase)

  // ----- the steps ----------------------------------------------------------------------

  function OrEmpty<V>(s: State<V>): map<string, V> {
    if s.Some? then s.value else map[]
  }

  /** `{ ...initial, ...prev }`, if there is a previous state. */
  function Adopt<V>(initial: State<V>, prev: State<V>): State<V> {
    if prev.Some? then Some(OrEmpty(initial) + prev.value) else initial
  }

  function ClassOf(l: Option<Class>): Class {
    if l.Some? then l.value else Base
  }

  predicate Throws<V>(l: Option<Class>, k: Construction<V>) {
    ClassOf(l) != Base && k.Threw?
  }

  function InitialState<V>(l: Option<Class>, k: Construction<V>): State<V> {
    if ClassOf(l) != Base && k.Built? then k.state else Some(map[])
  }

  function Make<P, V>(c: Component<P, V>, e: Entry, props: P, prev: State<V>, k: Construction<V>): Component<P, V> {
    var bad := Throws(e.logic, k);
    c.(logic := Logic(c.made, if bad then Base else ClassOf(e.logic), Adopt(InitialState(e.logic, k), prev)),
       made := c.made + 1,
       failedLogic := if bad then e.logic else None,
       failedProps := if bad then Some(props) else None,
       failedVer := if bad then e.ver else c.failedVer)
  }

  /** The render finds another class than the one in use, and not one that failed just so. */
  predicate Swaps<P, V>(c: Component<P, V>, e: Entry, props: P, same: (P, P) -> bool) {
    && e.logic != Some(c.logic.cls)
    && !(e.logic.None? && c.logic.cls == Base)
    && !(e.logic == c.failedLogic && e.ver == c.failedVer && c.failedProps.Some? && same(props, c.failedProps.value))
  }

  function Call<P, V>(c: Component<P, V>, h: Hook): Component<P, V> {
    c.(calls := c.calls + [h])
  }

  function Reconcile<P, V>(c: Component<P, V>, e: Entry, props: P, k: Construction<V>, same: (P, P) -> bool): Component<P, V> {
    if !Swaps(c, e, props, same) then c
    else
      var d := if c.needsDidMount then c else Call(c, WillUnmount(c.logic.id));
      Make(d, e, props, c.logic.state, k).(needsDidMount := true)
  }

  function Mount<P, V>(c: Component<P, V>): Component<P, V> {
    Call(c, DidMount(c.logic.id)).(phase := Mounted)
  }

  function Update<P, V>(c: Component<P, V>, failing: bool, tpl: bool): Component<P, V> {
    if !c.needsDidMount then Call(c, DidUpdate(c.logic.id))
    else if failing || !tpl then c
    else Call(c, DidMount(c.logic.id)).(needsDidMount := false)
  }

  function Leave<P, V>(c: Component<P, V>): Component<P, V> {
    (if c.needsDidMount then c else Call(c, WillUnmount(c.logic.id))).(phase := Gone)
  }

  function Patch<P, V>(c: Component<P, V>, patch: map<string, V>): Component<P, V> {
    c.(logic := c.logic.(state := Some(OrEmpty(c.logic.state) + patch)))
  }

  /** What React may do in a phase. */
  predicate Allowed<P, V>(phase: Phase, ev: Event<P, V>) {
    match ev
    case Render(_, _, _, _) => phase != Gone
    case CommitMount => phase == Fresh
    case CommitUpdate(_, _) => phase == Mounted
    case Unmount => phase == Mounted
    case SetState(_) => true
  }

  function Step<P, V>(c: Component<P, V>, ev: Event<P, V>, same: (P, P) -> bool): Component<P, V> {
    match ev
    case Render(e, props, failing, k) => if failing then c else Reconcile(c, e, props, k, same)
    case CommitMount => Mount(c)
    case CommitUpdate(failing, tpl) => Update(c, failing, tpl)
    case Unmount => Leave(c)
    case SetState(patch) => Patch(c, patch)
  }

  function Unmade<P, V>(): Component<P, V> {
    Component(Logic(0, Base, None), false, None, None, -1, 0, [], Fresh)
  }

  function New<P, V>(e: Entry, props: P, k: Construction<V>): Component<P, V> {
    Make(Unmade(), e, props, None, k)
  }

  function Run<P, V>(c: Component<P, V>, evs: seq<Event<P, V>>, same: (P, P) -> bool): Component<P, V>
    decreases |evs|
  {
    if evs == [] then c else Run(Step(c, evs[0], same), evs[1..], same)
  }

  predicate Legal<P, V>(c: Component<P, V>, evs: seq<Event<P, V>>, same: (P, P) -> bool)
    decreases |evs|
  {
    evs == [] || (Allowed(c.phase, evs[0]) && Legal(Step(c, evs[0], same), evs[1..], same))
  }

  /** The component as the source has it, updating its fields. */
  class StreamableComponent<P, V(0)> {
    var logic: Logic<V>
    var needsDidMount: bool
    var failedLogic: Option<Class>
    var failedProps: Option<P>
    var failedVer: int
    var made: nat
    var calls: seq<Hook>
    ghost var phase: Phase

    ghost function Value(): Component<P, V>
      reads this
    {
      Component(logic, needsDidMount, failedLogic, failedProps, failedVer, made, calls, phase)
    }

    constructor (e: Entry, props: P, k: Construction<V>)
      ensures Value() == New(e, props, k)
    {
      logic := Logic(0, Base, None);
      needsDidMount := false;
      failedLogic, failedProps, failedVer := None, None, -1;
      made, calls, phase := 0, [], Fresh;
      new;
      MakeLogic(e, props, None, k);
    }

    method MakeLogic(e: Entry, props: P, prev: State<V>, k: Construction<V>)
      modifies this
      ensures Value() == Make(old(Value()), e, props, prev, k)
    {
      var cls := ClassOf(e.logic);
      if cls == Base {
        logic := Logic(made, Base, Some(map[]));
        failedLogic, failedProps := None, None;
      } else {
        match k
        case Built(initial) =>
          logic := Logic(made, cls, initial);
          failedLogic, failedProps := None, None;
        case Threw =>
          failedLogic, failedProps, failedVer := e.logic, Some(props), e.ver;
          logic := Logic(made, Base, Some(map[]));
      }
      made := made + 1;
      if prev.Some? {
        logic := logic.(state := Some(OrEmpty(logic.state) + prev.value));
      }
    }

    method ReconcileLogic(e: Entry, props: P, k: Construction<V>, same: (P, P) -> bool)
      modifies this
      ensures Value() == Reconcile(old(Value()), e, props, k, same)
    {
      if e.logic == Some(logic.cls) || (e.logic.None? && logic.cls == Base) {
        return;
      }
      if e.logic == failedLogic && e.ver == failedVer && failedProps.Some? && same(props, failedProps.value) {
        return;
      }
      if !needsDidMount {
        calls := calls + [WillUnmount(logic.id)];
      }
      MakeLogic(e, props, logic.state, k);
      needsDidMount := true;
    }

    method ComponentDidMount()
      modifies this
      ensures Value() == Mount(old(Value()))
    {
      calls := calls + [DidMount(logic.id)];
      phase := Mounted;
    }

    method ComponentDidUpdate(failing: bool, tpl: bool)
      modifies this
      ensures Value() == Update(old(Value()), failing, tpl)
    {
      if needsDidMount {
        if failing || !tpl {
          return;
        }
        needsDidMount := false;
        calls := calls + [DidMount(logic.id)];
      } else {
        calls := calls + [DidUpdate(logic.id)];
      }
    }

    method ComponentWillUnmount()
      modifies this
      ensures Value() == Leave(old(Value()))
    {
      if !needsDidMount {
        calls := calls + [WillUnmount(logic.id)];
      }
      phase := Gone;
    }

    method SetLogicState(patch: map<string, V>)
      modifies this
      ensures Value() == Patch(old(Value()), patch)
    {
      logic := logic.(state := Some(OrEmpty(logic.state) + patch));
    }

    method Perform(ev: Event<P, V>, same: (P, P) -> bool)
      modifies this
      ensures Value() == Step(old(Value()), ev, same)
    {
      match ev
      case Render(e, props, failing, k) =>
        if !failing {
          ReconcileLogic(e, props, k, same);
        }
      case CommitMount => ComponentDidMount();
      case CommitUpdate(failing, tpl) => ComponentDidUpdate(failing, tpl);
      case Unmount => ComponentWillUnmount();
      case SetState(patch) => SetLogicState(patch);
    }
  }

  // ----- the life of one instance -------------------------------------------------------

  datatype Life = Unborn | Live | Dead | Broken

  /** An instance is mounted, then updated any number of times, then unmounted. */
  function After(l: Life, h: Hook): Life {
    match h
    case DidMount(_) => if l == Unborn then Live else Broken
    case DidUpdate(_) => if l == Live then Live else Broken
    case WillUnmount(_) => if l == Live then Dead else Broken
  }

  function LifeOf(calls: seq<Hook>, id: nat): Life {
    if calls == [] then Unborn
    else
      var n := |calls| - 1;
      var l := LifeOf(calls[..n], id);
      if calls[n].id == id then After(l, calls[n]) else l
  }

  function Count(calls: seq<Hook>, h: Hook): nat {
    if calls == [] then 0
    else
      var n := |calls| - 1;
      Count(calls[..n], h) + if calls[n] == h then 1 else 0
  }

  /** No instance is treated out of order. */
  ghost predicate Orderly(calls: seq<Hook>) {
    forall id {:trigger LifeOf(calls, id)} :: LifeOf(calls, id) != Broken
  }

  lemma LifeCall(calls: seq<Hook>, h: Hook, id: nat)
    ensures LifeOf(calls + [h], id) == if h.id == id then After(LifeOf(calls, id), h) else LifeOf(calls, id)
  {
    assert (calls + [h])[..|calls|] == calls;
  }

  /** What a life in order says in counts. */
  lemma {:induction false} LifeCounts(calls: seq<Hook>, id: nat)
    requires LifeOf(calls, id) != Broken
    ensures Count(calls, DidMount(id)) == (if LifeOf(calls, id) == Unborn then 0 else 1)
    ensures Count(calls, WillUnmount(id)) == (if LifeOf(calls, id) == Dead then 1 else 0)
  {
    if calls != [] { LifeCounts(calls[..|calls| - 1], id); }
  }

  /** What was out of order stays so. */
  lemma {:induction false} BrokenStays(calls: seq<Hook>, n: nat, id: nat)
    requires n <= |calls| && LifeOf(calls[..n], id) == Broken
    ensures LifeOf(calls, id) == Broken
    decreases |calls| - n
  {
    if n == |calls| {
      assert calls[..n] == calls;
    } else {
      assert calls[..n + 1][..n] == calls[..n];
      BrokenStays(calls, n + 1, id);
    }
  }

  /** In an orderly run every instance has did-mount at most once, will-unmount at most once, and
      before any will-unmount exactly one did-mount. */
  lemma OrderlyMeans(calls: seq<Hook>, id: nat)
    requires Orderly(calls)
    ensures Count(calls, DidMount(id)) <= 1 && Count(calls, WillUnmount(id)) <= 1
    ensures forall n :: 0 <= n < |calls| && calls[n] == WillUnmount(id) ==> Count(calls[..n], DidMount(id)) == 1
  {
    LifeCounts(calls, id);
    forall n | 0 <= n < |calls| && calls[n] == WillUnmount(id) ensures Count(calls[..n], DidMount(id)) == 1 {
      var n' := n + 1;
      if LifeOf(calls[..n], id) == Broken { BrokenStays(calls, n, id); }
      if LifeOf(calls[..n'], id) == Broken { BrokenStays(calls, n', id); }
      assert calls[..n'] == calls[..n] + [calls[n]];
      LifeCall(calls[..n], calls[n], id);
      LifeCounts(calls[..n], id);
    }
  }

  // ----- every run ----------------------------------------------------------------------

  /** Before the mount commit a render swaps. */
  predicate EarlySwap<P, V>(c: Component<P, V>, ev: Event<P, V>, same: (P, P) -> bool) {
    c.phase == Fresh && ev.Render? && !ev.failing && Swaps(c, ev.entry, ev.props, same)
  }

  predicate SwapsEarly<P, V>(c: Component<P, V>, evs: seq<Event<P, V>>, same: (P, P) -> bool)
    decreases |evs|
  {
    evs != [] && (EarlySwap(c, evs[0], same) || SwapsEarly(Step(c, evs[0], same), evs[1..], same))
  }

  /** Where the instance in use is in its life. */
  function Stage<P, V>(c: Component<P, V>): set<Life> {
    if c.phase == Fresh || c.needsDidMount then {Unborn}
    else if c.phase == Mounted then {Live}
    else {Dead}
  }

  /** The instance `id` is as it should be: one not in use is not left alive. */
  ghost predicate Settled<P, V>(c: Component<P, V>, id: nat) {
    var l := LifeOf(c.calls, id);
    && (id >= c.made ==> l == Unborn)
    && (id == c.logic.id ==> l in Stage(c))
    && (id != c.logic.id ==> l == Unborn || l == Dead)
  }

  ghost predicate Inv<P, V>(c: Component<P, V>) {
    && c.logic.id < c.made
    && (c.phase == Fresh ==> !c.needsDidMount)
    && forall id {:trigger Settled(c, id)} :: Settled(c, id)
  }

  lemma NewInv<P, V>(e: Entry, props: P, k: Construction<V>)
    ensures Inv(New<P, V>(e, props, k))
  {
  }

  lemma StepInv<P, V>(c: Component<P, V>, ev: Event<P, V>, same: (P, P) -> bool)
    requires Inv(c) && Allowed(c.phase, ev) && !EarlySwap(c, ev, same)
    ensures Inv(Step(c, ev, same))
  {
    var d := Step(c, ev, same);
    forall id: nat ensures Settled(d, id) {
      assert Settled(c, id);
      if d.calls != c.calls {
        var h := d.calls[|c.calls|];
        assert d.calls == c.calls + [h];
        LifeCall(c.calls, h, id);
      }
    }
  }

  lemma {:induction false} RunInv<P, V>(c: Component<P, V>, evs: seq<Event<P, V>>, same: (P, P) -> bool)
    requires Inv(c) && Legal(c, evs, same) && !SwapsEarly(c, evs, same)
    ensures Inv(Run(c, evs, same))
    decreases |evs|
  {
    if evs != [] {
      StepInv(c, evs[0], same);
      RunInv(Step(c, evs[0], same), evs[1..], same);
    }
  }

  /** The calls of a step only grow. */
  lemma {:induction false} CallsGrow<P, V>(c: Component<P, V>, evs: seq<Event<P, V>>, same: (P, P) -> bool)
    ensures c.calls <= Run(c, evs, same).calls
    decreases |evs|
  {
    if evs != [] { CallsGrow(Step(c, evs[0], same), evs[1..], same); }
  }

  lemma {:induction false} EarlySwapBreaks<P, V>(c: Component<P, V>, evs: seq<Event<P, V>>, same: (P, P) -> bool)
    requires Inv(c) && Legal(c, evs, same) && SwapsEarly(c, evs, same)
    ensures !Orderly(Run(c, evs, same).calls)
    decreases |evs|
  {
    var d := Step(c, evs[0], same);
    if EarlySwap(c, evs[0], same) {
      var h := WillUnmount(c.logic.id);
      assert Settled(c, c.logic.id);
      LifeCall(c.calls, h, c.logic.id);
      CallsGrow(d, evs[1..], same);
      var calls := Run(c, evs, same).calls;
      assert calls[..|d.calls|] == d.calls;
      BrokenStays(calls, |d.calls|, c.logic.id);
    } else {
      StepInv(c, evs[0], same);
      EarlySwapBreaks(d, evs[1..], same);
    }
  }

  /** Over every run: the instances' lives are in order exactly when no render before the mount
      commit swaps. */
  lemma OrderlyExactly<P, V>(e: Entry, props: P, k: Construction<V>, evs: seq<Event<P, V>>, same: (P, P) -> bool)
    requires Legal(New<P, V>(e, props, k), evs, same)
    ensures Orderly(Run(New(e, props, k), evs, same).calls) <==> !SwapsEarly(New(e, props, k), evs, same)
  {
    var c := New<P, V>(e, props, k);
    NewInv<P, V>(e, props, k);
    if SwapsEarly(c, evs, same) {
      EarlySwapBreaks(c, evs, same);
    } else {
      RunInv(c, evs, same);
      var d := Run(c, evs, same);
      forall id: nat ensures LifeOf(d.calls, id) != Broken { assert Settled(d, id); }
    }
  }

  /** And then every instance that was mounted, and is swapped out or whose component is gone,
      has been unmounted. */
  lemma NoneLeftMounted<P, V>(e: Entry, props: P, k: Construction<V>, evs: seq<Event<P, V>>, same: (P, P) -> bool, id: nat)
    requires Legal(New<P, V>(e, props, k), evs, same) && !SwapsEarly(New<P, V>(e, props, k), evs, same)
    ensures var d := Run(New(e, props, k), evs, same);
            id != d.logic.id || d.phase == Gone ==> Count(d.calls, WillUnmount(id)) == Count(d.calls, DidMount(id))
  {
    var c := New<P, V>(e, props, k);
    NewInv<P, V>(e, props, k);
    RunInv(c, evs, same);
    var d := Run(c, evs, same);
    assert Settled(d, id);
    LifeCounts(d.calls, id);
  }

  lemma CountCall(calls: seq<Hook>, h: Hook, x: Hook)
    ensures Count(calls + [h], x) == Count(calls, x) + if h == x then 1 else 0
  {
    assert (calls + [h])[..|calls|] == calls;
  }

  lemma RunThree<P, V>(c: Component<P, V>, a: Event<P, V>, b: Event<P, V>, d: Event<P, V>, same: (P, P) -> bool)
    ensures Run(c, [a, b, d], same) == Step(Step(Step(c, a, same), b, same), d, same)
  {
    assert [a, b, d][1..] == [b, d] && [b, d][1..] == [d] && [d][1..] == [];
    var c1 := Step(c, a, same);
    var c2 := Step(c1, b, same);
    assert Run(c2, [d], same) == Run(Step(c2, d, same), [], same);
    assert Run(c1, [b, d], same) == Run(c2, [d], same);
  }

  /** An early swap unmounts an instance that was never mounted; a mount and an update that finds
      a template then mount the new instance twice. */
  lemma EarlySwapMountsTwice<P, V>(c: Component<P, V>, r: Event<P, V>, same: (P, P) -> bool)
    requires Inv(c) && EarlySwap(c, r, same)
    ensures var d := Run(c, [r, CommitMount, CommitUpdate(false, true)], same);
            && Count(d.calls, DidMount(d.logic.id)) == 2
            && Count(d.calls, DidMount(c.logic.id)) == 0 && Count(d.calls, WillUnmount(c.logic.id)) == 1
  {
    RunThree(c, r, CommitMount, CommitUpdate(false, true), same);
    var gone, next := c.logic.id, c.made;
    assert Settled(c, gone) && Settled(c, next);
    LifeCounts(c.calls, gone);
    LifeCounts(c.calls, next);
    var calls1 := c.calls + [WillUnmount(gone)];
    var calls2 := calls1 + [DidMount(next)];
    forall x: Hook ensures Count(calls2 + [DidMount(next)], x)
                        == Count(c.calls, x) + (if x == WillUnmount(gone) then 1 else 0) + (if x == DidMount(next) then 2 else 0) {
      CountCall(c.calls, WillUnmount(gone), x);
      CountCall(calls1, DidMount(next), x);
      CountCall(calls2, DidMount(next), x);
    }
  }

  // ----- state --------------------------------------------------------------------------

  ghost predicate Holds<P, V>(c: Component<P, V>, key: string, v: V) {
    c.logic.state.Some? && key in c.logic.state.value && c.logic.state.value[key] == v
  }

  predicate Sets<P, V>(ev: Event<P, V>, key: string) {
    ev.SetState? && key in ev.patch
  }

  /** Over every run: a key's value lasts until it is set, whatever is swapped. */
  lemma {:induction false} StateKept<P, V>(c: Component<P, V>, evs: seq<Event<P, V>>, same: (P, P) -> bool, key: string, v: V)
    requires Holds(c, key, v) && forall i :: 0 <= i < |evs| ==> !Sets(evs[i], key)
    ensures Holds(Run(c, evs, same), key, v)
    decreases |evs|
  {
    if evs != [] {
      assert !Sets(evs[0], key);
      StateKept(Step(c, evs[0], same), evs[1..], same, key, v);
    }
  }

  // ----- where a value comes from -------------------------------------------------------

  /** The constructor of the class gives the key a value: it is an author's, and did not throw. */
  predicate Gives<V>(l: Option<Class>, k: Construction<V>, key: string) {
    l.Some? && l.value.Author? && k.Built? && k.state.Some? && key in k.state.value
  }

  predicate HasKey<P, V>(c: Component<P, V>, key: string) {
    c.logic.state.Some? && key in c.logic.state.value
  }

  /** A new component is of the class if its constructor did not throw, of the base class
      otherwise, and its state is the constructor's and nothing else. */
  lemma NewMeans<P, V>(e: Entry, props: P, k: Construction<V>, key: string, v: V)
    ensures var c := New<P, V>(e, props, k);
            && (Holds(c, key, v) <==> Gives(e.logic, k, key) && k.state.value[key] == v)
            && (c.logic.cls == if e.logic.Some? && e.logic.value.Author? && k.Built? then e.logic.value else Base)
            && (c.logic.state.None? <==> e.logic.Some? && e.logic.value.Author? && k == Built(None))
  {
  }

  /** After a swap every previous key has its previous value, every other key of the constructor's
      state its initial value, and there is no other key. */
  lemma SwapMeans<P, V>(c: Component<P, V>, e: Entry, props: P, k: Construction<V>, same: (P, P) -> bool, key: string, v: V)
    requires Swaps(c, e, props, same)
    ensures var d := Reconcile(c, e, props, k, same);
            && (Holds(d, key, v) <==>
                  if HasKey(c, key) then Holds(c, key, v) else Gives(e.logic, k, key) && k.state.value[key] == v)
            && (d.logic.cls == if e.logic.Some? && e.logic.value.Author? && k.Built? then e.logic.value else Base)
            && d.logic.id == c.made && d.needsDidMount
  {
  }

  /** The event swaps, and the new instance's constructor gives the key a value. */
  predicate Offers<P, V>(c: Component<P, V>, ev: Event<P, V>, same: (P, P) -> bool, key: string) {
    ev.Render? && !ev.failing && Swaps(c, ev.entry, ev.props, same) && Gives(ev.entry.logic, ev.construction, key)
  }

  /** One event: set, or kept, or else offered. */
  lemma StepState<P, V>(c: Component<P, V>, ev: Event<P, V>, same: (P, P) -> bool, key: string, v: V)
    ensures Holds(Step(c, ev, same), key, v) <==>
      if Sets(ev, key) then ev.patch[key] == v
      else if HasKey(c, key) then Holds(c, key, v)
      else Offers(c, ev, same, key) && ev.construction.state.value[key] == v
    ensures HasKey(Step(c, ev, same), key) <==> HasKey(c, key) || Sets(ev, key) || Offers(c, ev, same, key)
  {
    if ev.Render? && !ev.failing && Swaps(c, ev.entry, ev.props, same) {
      SwapMeans(c, ev.entry, ev.props, ev.construction, same, key, v);
    }
  }

  lemma {:induction false} RunLast<P, V>(c: Component<P, V>, evs: seq<Event<P, V>>, ev: Event<P, V>, same: (P, P) -> bool)
    ensures Run(c, evs + [ev], same) == Step(Run(c, evs, same), ev, same)
    decreases |evs|
  {
    var all := evs + [ev];
    if evs == [] {
      assert all[1..] == [];
    } else {
      assert all[1..] == evs[1..] + [ev];
      RunLast(Step(c, evs[0], same), evs[1..], ev, same);
    }
  }

  /** The event at `i` makes an instance that has the key initially. */
  ghost predicate OffersAt<P, V>(c: Component<P, V>, evs: seq<Event<P, V>>, same: (P, P) -> bool, i: nat, key: string) {
    i < |evs| && Offers(Run(c, evs[..i], same), evs[i], same, key)
  }

  ghost predicate SetsAt<P, V>(evs: seq<Event<P, V>>, i: nat, key: string) {
    i < |evs| && Sets(evs[i], key)
  }

  /** The last event that sets the key. */
  ghost predicate SetLast<P, V>(evs: seq<Event<P, V>>, i: nat, key: string) {
    SetsAt(evs, i, key) && forall j: nat {:trigger SetsAt(evs, j, key)} :: SetsAt(evs, j, key) ==> j <= i
  }

  /** The first event that offers the key. */
  ghost predicate OfferedFirst<P, V>(c: Component<P, V>, evs: seq<Event<P, V>>, same: (P, P) -> bool, i: nat, key: string) {
    && OffersAt(c, evs, same, i, key)
    && forall j: nat {:trigger OffersAt(c, evs, same, j, key)} :: OffersAt(c, evs, same, j, key) ==> i <= j
  }

  /** Where a key's value comes from after a run. */
  ghost predicate Origin<P, V>(c: Component<P, V>, evs: seq<Event<P, V>>, same: (P, P) -> bool, key: string, v: V) {
    if exists i: nat :: SetsAt(evs, i, key) then exists i: nat :: SetLast(evs, i, key) && evs[i].patch[key] == v
    else if HasKey(c, key) then Holds(c, key, v)
    else exists i: nat :: OfferedFirst(c, evs, same, i, key) && evs[i].construction.state.value[key] == v
  }

  lemma AtLast<P, V>(c: Component<P, V>, evs: seq<Event<P, V>>, ev: Event<P, V>, same: (P, P) -> bool, i: nat, key: string)
    ensures OffersAt(c, evs + [ev], same, i, key) <==>
      OffersAt(c, evs, same, i, key) || (i == |evs| && Offers(Run(c, evs, same), ev, same, key))
    ensures SetsAt(evs + [ev], i, key) <==> SetsAt(evs, i, key) || (i == |evs| && Sets(ev, key))
  {
    if i <= |evs| { assert (evs + [ev])[..i] == evs[..i]; }
    assert evs[..|evs|] == evs;
  }

  ghost predicate Present<P, V>(c: Component<P, V>, evs: seq<Event<P, V>>, same: (P, P) -> bool, key: string) {
    || HasKey(c, key)
    || (exists i: nat :: SetsAt(evs, i, key))
    || exists i: nat :: OffersAt(c, evs, same, i, key)
  }

  lemma PresentStep<P, V>(c: Component<P, V>, evs: seq<Event<P, V>>, ev: Event<P, V>, same: (P, P) -> bool, key: string)
    ensures Present(c, evs + [ev], same, key) <==> Present(c, evs, same, key) || Sets(ev, key) || Offers(Run(c, evs, same), ev, same, key)
  {
    forall i: nat
      ensures OffersAt(c, evs + [ev], same, i, key) <==>
        OffersAt(c, evs, same, i, key) || (i == |evs| && Offers(Run(c, evs, same), ev, same, key))
      ensures SetsAt(evs + [ev], i, key) <==> SetsAt(evs, i, key) || (i == |evs| && Sets(ev, key)) {
      AtLast(c, evs, ev, same, i, key);
    }
    if Sets(ev, key) { assert SetsAt(evs + [ev], |evs|, key); }
    if Offers(Run(c, evs, same), ev, same, key) { assert OffersAt(c, evs + [ev], same, |evs|, key); }
  }

  /** A key is there exactly if it was, or has been set, or an instance made since had it. */
  lemma {:induction false} KeyPresent<P, V>(c: Component<P, V>, evs: seq<Event<P, V>>, same: (P, P) -> bool, key: string)
    ensures HasKey(Run(c, evs, same), key) <==> Present(c, evs, same, key)
    decreases |evs|
  {
    if evs != [] {
      var n := |evs| - 1;
      var p, ev := evs[..n], evs[n];
      assert evs == p + [ev];
      KeyPresent(c, p, same, key);
      RunLast(c, p, ev, same);
      PresentStep(c, p, ev, same, key);
      var d := Run(c, p, same);
      assert HasKey(Step(d, ev, same), key) <==> HasKey(d, key) || Sets(ev, key) || Offers(d, ev, same, key);
    }
  }

  /** Over every run: a key holds the value it was last set to; if never set, the value it had; if it
      had none, the initial value of the first new instance that had one; and is absent otherwise. */
  lemma {:induction false} StateExactly<P, V>(c: Component<P, V>, evs: seq<Event<P, V>>, same: (P, P) -> bool, key: string, v: V)
    ensures Holds(Run(c, evs, same), key, v) <==> Origin(c, evs, same, key, v)
    decreases |evs|
  {
    if evs != [] {
      var n := |evs| - 1;
      var p, ev := evs[..n], evs[n];
      assert evs == p + [ev];
      StateExactly(c, p, same, key, v);
      RunLast(c, p, ev, same);
      StepState(Run(c, p, same), ev, same, key, v);
      KeyPresent(c, p, same, key);
      OriginStep(c, p, ev, same, key, v);
    }
  }

  lemma OriginStep<P, V>(c: Component<P, V>, evs: seq<Event<P, V>>, ev: Event<P, V>, same: (P, P) -> bool, key: string, v: V)
    ensures Origin(c, evs + [ev], same, key, v) <==>
      if Sets(ev, key) then ev.patch[key] == v
      else if Present(c, evs, same, key) then Origin(c, evs, same, key, v)
      else Offers(Run(c, evs, same), ev, same, key) && ev.construction.state.value[key] == v
  {
    forall i: nat
      ensures OffersAt(c, evs + [ev], same, i, key) <==>
        OffersAt(c, evs, same, i, key) || (i == |evs| && Offers(Run(c, evs, same), ev, same, key))
      ensures SetsAt(evs + [ev], i, key) <==> SetsAt(evs, i, key) || (i == |evs| && Sets(ev, key)) {
      AtLast(c, evs, ev, same, i, key);
    }
    if Sets(ev, key) {
      SetNow(evs, ev, key, v);
    } else if i: nat :| SetsAt(evs, i, key) {
      SetBefore(evs, ev, key, v);
      assert SetsAt(evs + [ev], i, key);
    } else if !HasKey(c, key) {
      OfferNow(c, evs, ev, same, key, v);
    }
  }

  lemma SetNow<P, V>(evs: seq<Event<P, V>>, ev: Event<P, V>, key: string, v: V)
    requires Sets(ev, key)
    ensures var all := evs + [ev];
            && SetsAt(all, |evs|, key)
            && ((exists i: nat :: SetLast(all, i, key) && all[i].patch[key] == v) <==> ev.patch[key] == v)
  {
    assert SetsAt(evs + [ev], |evs|, key) && SetLast(evs + [ev], |evs|, key);
  }

  lemma SetBefore<P, V>(evs: seq<Event<P, V>>, ev: Event<P, V>, key: string, v: V)
    requires !Sets(ev, key)
    ensures var all := evs + [ev];
            && ((exists i: nat :: SetLast(all, i, key) && all[i].patch[key] == v)
                <==> exists i: nat :: SetLast(evs, i, key) && evs[i].patch[key] == v)
  {
    var all := evs + [ev];
    forall i: nat ensures SetsAt(all, i, key) <==> SetsAt(evs, i, key) { }
    forall i: nat ensures SetLast(all, i, key) <==> SetLast(evs, i, key) { }
    forall i: nat | SetLast(evs, i, key) ensures all[i] == evs[i] { }
  }

  lemma OfferNow<P, V>(c: Component<P, V>, evs: seq<Event<P, V>>, ev: Event<P, V>, same: (P, P) -> bool, key: string, v: V)
    ensures var all := evs + [ev];
            && ((exists i: nat :: OfferedFirst(c, all, same, i, key) && all[i].construction.state.value[key] == v) <==>
                  if exists i: nat :: OffersAt(c, evs, same, i, key)
                  then exists i: nat :: OfferedFirst(c, evs, same, i, key) && evs[i].construction.state.value[key] == v
                  else Offers(Run(c, evs, same), ev, same, key) && ev.construction.state.value[key] == v)
  {
    var all, n := evs + [ev], |evs|;
    forall i: nat ensures OffersAt(c, all, same, i, key) <==>
      OffersAt(c, evs, same, i, key) || (i == n && Offers(Run(c, evs, same), ev, same, key)) {
      AtLast(c, evs, ev, same, i, key);
    }
    assert forall i: nat :: i < n ==> all[i] == evs[i];
    if i: nat :| OffersAt(c, evs, same, i, key) {
      forall j: nat ensures OfferedFirst(c, all, same, j, key) <==> OfferedFirst(c, evs, same, j, key) { }
    } else if Offers(Run(c, evs, same), ev, same, key) {
      assert OffersAt(c, all, same, n, key) && OfferedFirst(c, all, same, n, key);
    }
  }

  // ----- the calls while one instance is in use -----------------------------------------

  function Commits<P, V>(evs: seq<Event<P, V>>): nat {
    if evs == [] then 0 else (if evs[0].CommitUpdate? then 1 else 0) + Commits(evs[1..])
  }

  /** An update that shows the template without an error. */
  predicate Shows<P, V>(ev: Event<P, V>) {
    ev.CommitUpdate? && !ev.failing && ev.tpl
  }

  /** The updates after the first that shows the template. */
  function CommitsAfterShown<P, V>(evs: seq<Event<P, V>>): nat {
    if evs == [] then 0 else if Shows(evs[0]) then Commits(evs[1..]) else CommitsAfterShown(evs[1..])
  }

  ghost predicate Between<P, V>(evs: seq<Event<P, V>>) {
    forall i {:trigger evs[i]} :: 0 <= i < |evs| ==> evs[i] != CommitMount && evs[i] != Unmount
  }

  lemma {:induction false} MadeGrows<P, V>(c: Component<P, V>, evs: seq<Event<P, V>>, same: (P, P) -> bool)
    ensures c.made <= Run(c, evs, same).made
    decreases |evs|
  {
    if evs != [] { MadeGrows(Step(c, evs[0], same), evs[1..], same); }
  }

  /** While no instance is made, every update is told to the one in use; */
  lemma {:induction false} UpdatesTold<P, V>(c: Component<P, V>, evs: seq<Event<P, V>>, same: (P, P) -> bool)
    requires !c.needsDidMount && Between(evs) && Run(c, evs, same).made == c.made
    ensures Run(c, evs, same).calls == c.calls + seq(Commits(evs), _ => DidUpdate(c.logic.id)) && !Run(c, evs, same).needsDidMount
    decreases |evs|
  {
    if evs != [] {
      var d, rest := Step(c, evs[0], same), evs[1..];
      MadeGrows(d, rest, same);
      assert d.made == c.made && d.logic.id == c.logic.id;
      UpdatesTold(d, rest, same);
      if evs[0].CommitUpdate? {
        assert c.calls + [DidUpdate(c.logic.id)] + seq(Commits(rest), _ => DidUpdate(c.logic.id)) == c.calls + seq(Commits(evs), _ => DidUpdate(c.logic.id));
      }
    }
  }

  /** and a swapped-in one is told of its mounting by the first update that shows the template, of
      the updates after that, and of none before. */
  lemma {:induction false} MountDelivered<P, V>(c: Component<P, V>, evs: seq<Event<P, V>>, same: (P, P) -> bool)
    requires c.needsDidMount && Between(evs) && Run(c, evs, same).made == c.made
    ensures var shown := exists i :: 0 <= i < |evs| && Shows(evs[i]);
            var d := Run(c, evs, same);
            && d.needsDidMount == !shown
            && d.calls == c.calls + if shown then [DidMount(c.logic.id)] + seq(CommitsAfterShown(evs), _ => DidUpdate(c.logic.id)) else []
    decreases |evs|
  {
    if evs != [] {
      var d, rest := Step(c, evs[0], same), evs[1..];
      MadeGrows(d, rest, same);
      assert d.made == c.made && d.logic.id == c.logic.id;
      assert forall i :: 0 <= i < |rest| ==> rest[i] == evs[i + 1];
      if Shows(evs[0]) {
        UpdatesTold(d, rest, same);
      } else {
        MountDelivered(d, rest, same);
        if i :| 0 <= i < |evs| && Shows(evs[i]) { assert Shows(rest[i - 1]); }
      }
    }
  }

  // ----- failed constructions -----------------------------------------------------------

  /** Another render of the entry, with props that count as the same. */
  predicate Repeats<P, V>(ev: Event<P, V>, l: Option<Class>, v: nat, p: P, same: (P, P) -> bool) {
    ev.Render? ==> ev.entry.logic == l && ev.entry.ver == v && same(ev.props, p)
  }

  ghost predicate AllRepeat<P, V>(evs: seq<Event<P, V>>, l: Option<Class>, v: nat, p: P, same: (P, P) -> bool) {
    forall i :: 0 <= i < |evs| ==> Repeats(evs[i], l, v, p, same)
  }

  /** The class is in use, or its construction just failed with these props. */
  ghost predicate Rests<P, V>(c: Component<P, V>, l: Option<Class>, v: nat, p: P) {
    || l == Some(c.logic.cls)
    || (l.None? && c.logic.cls == Base)
    || (l == c.failedLogic && v == c.failedVer && c.failedProps == Some(p))
  }

  /** While an entry is only rendered again, no instance is made. */
  lemma {:induction false} RestsOn<P, V>(c: Component<P, V>, evs: seq<Event<P, V>>, same: (P, P) -> bool, l: Option<Class>, v: nat, p: P)
    requires Rests(c, l, v, p) && AllRepeat(evs, l, v, p, same)
    ensures var d := Run(c, evs, same);
            && d.made == c.made && d.logic.cls == c.logic.cls
            && d.failedLogic == c.failedLogic && d.failedProps == c.failedProps && d.failedVer == c.failedVer
    decreases |evs|
  {
    if evs != [] {
      assert Repeats(evs[0], l, v, p, same);
      RestsOn(Step(c, evs[0], same), evs[1..], same, l, v, p);
    }
  }

  /** After a swap the component rests. */
  lemma SwapRests<P, V>(c: Component<P, V>, e: Entry, props: P, k: Construction<V>, same: (P, P) -> bool)
    requires Swaps(c, e, props, same)
    ensures Rests(Reconcile(c, e, props, k, same), e.logic, e.ver, props)
  {
  }

  /** Any two renders of the run are of one entry, and the later one's props count as the same. */
  ghost predicate OneEntry<P, V>(evs: seq<Event<P, V>>, same: (P, P) -> bool) {
    forall i, j :: 0 <= i < j < |evs| && evs[i].Render? ==> Repeats(evs[j], evs[i].entry.logic, evs[i].entry.ver, evs[i].props, same)
  }

  /** Over every run that renders one entry with the same props, however often, and whatever commits
      and state updates come in between, at most one instance is made, even if its construction
      throws every time. */
  lemma {:induction false} MadeOnce<P, V>(c: Component<P, V>, evs: seq<Event<P, V>>, same: (P, P) -> bool)
    requires OneEntry(evs, same)
    ensures Run(c, evs, same).made <= c.made + 1
    decreases |evs|
  {
    if evs != [] {
      var ev, d, rest := evs[0], Step(c, evs[0], same), evs[1..];
      forall i, j | 0 <= i < j < |rest| && rest[i].Render?
        ensures Repeats(rest[j], rest[i].entry.logic, rest[i].entry.ver, rest[i].props, same) {
        assert Repeats(evs[j + 1], evs[i + 1].entry.logic, evs[i + 1].entry.ver, evs[i + 1].props, same);
      }
      if ev.Render? && !ev.failing && Swaps(c, ev.entry, ev.props, same) {
        SwapRests(c, ev.entry, ev.props, ev.construction, same);
        forall j | 0 <= j < |rest| ensures Repeats(rest[j], ev.entry.logic, ev.entry.ver, ev.props, same) {
          assert Repeats(evs[j + 1], evs[0].entry.logic, evs[0].entry.ver, evs[0].props, same);
        }
        RestsOn(d, rest, same, ev.entry.logic, ev.entry.ver, ev.props);
      } else {
        MadeOnce(d, rest, same);
      }
    }
  }

  /** After a construction threw, and however often it was rendered since, the class is tried again
      exactly if the version or the props changed. */
  lemma RetriedExactly<P, V>(c: Component<P, V>, e: Entry, props: P, k: Construction<V>, evs: seq<Event<P, V>>,
                             e': Entry, props': P, same: (P, P) -> bool)
    requires Swaps(c, e, props, same) && Throws(e.logic, k) && AllRepeat(evs, e.logic, e.ver, props, same) && e'.logic == e.logic
    ensures Swaps(Run(Reconcile(c, e, props, k, same), evs, same), e', props', same) <==> e'.ver != e.ver || !same(props', props)
  {
    SwapRests(c, e, props, k, same);
    RestsOn(Reconcile(c, e, props, k, same), evs, same, e.logic, e.ver, props);
  }

  // ----- the class in use ---------------------------------------------------------------

  /** A failure on record is of an author's class, and the base class stands in for it. */
  ghost predicate FailureInv<P, V>(c: Component<P, V>) {
    && (c.failedLogic.Some? <==> c.failedProps.Some?)
    && (c.failedLogic.Some? ==> c.failedLogic.value.Author? && c.logic.cls == Base)
  }

  lemma NewFailure<P, V>(e: Entry, props: P, k: Construction<V>)
    ensures FailureInv(New<P, V>(e, props, k))
  {
  }

  lemma {:induction false} RunFailure<P, V>(c: Component<P, V>, evs: seq<Event<P, V>>, same: (P, P) -> bool)
    requires FailureInv(c)
    ensures FailureInv(Run(c, evs, same))
    decreases |evs|
  {
    if evs != [] { RunFailure(Step(c, evs[0], same), evs[1..], same); }
  }

  /** The component runs the entry's class, or the base class for an entry without one. */
  predicate Serves<P, V>(c: Component<P, V>, e: Entry) {
    match e.logic
    case Some(cls) => c.logic.cls == cls
    case None => c.logic.cls == Base
  }

  /** The component runs the base class because the entry's class threw, in this version and with
      props that count as the same. */
  predicate StandsIn<P, V>(c: Component<P, V>, e: Entry, props: P, same: (P, P) -> bool) {
    && c.logic.cls == Base && c.failedLogic == e.logic && c.failedVer == e.ver
    && c.failedProps.Some? && same(props, c.failedProps.value)
  }

  /** Over every run: a render that shows no error leaves a component alone that runs the entry's
      class or stands in for it; it swaps any other, and then the component does so, unless the
      construction throws with props that do not count as the same as themselves. */
  lemma RenderServes<P, V>(e0: Entry, p0: P, k0: Construction<V>, evs: seq<Event<P, V>>, same: (P, P) -> bool,
                           e: Entry, props: P, k: Construction<V>)
    ensures var c := Run(New<P, V>(e0, p0, k0), evs, same);
            var d := Step(c, Render(e, props, false, k), same);
            && (d == c <==> Serves(c, e) || StandsIn(c, e, props, same))
            && (d != c ==> d.made == c.made + 1)
            && (Serves(d, e) || StandsIn(d, e, props, same) || !same(props, props))
  {
    NewFailure<P, V>(e0, p0, k0);
    RunFailure(New<P, V>(e0, p0, k0), evs, same);
  }
}
