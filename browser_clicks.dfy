/**
 * The click handling of a browser list item, as the component does it.
 *
 * A first click calls a `_.debounce(_onClick, 200)` instance and sets
 * `clickedOnce`; a second click cancels that instance's pending call and clears
 * `clickedOnce`. Firing the pending call does not touch `clickedOnce`, and a new
 * model drops the debouncer without cancelling it, so its pending call still
 * fires later, against the new model.
 *
 * Time is a clock advanced by `Tick` events; a timer is the deadline at which it
 * fires. `Step` gives the effect of one event on an `ItemState`, and the class
 * `BrowserListItem` performs the same effects on its fields.
 */
module BrowserClicks {
  import opened Wrappers
  import opened BrowserMenu

  /** The debounce wait of the click handler. */
  const ClickWindow: nat := 200
  /** The delay before the inline menu hides after the pointer leaves it. */
  const HideDelay: nat := 500

  /** A debounced `_onClick`: the deadline of its pending call, if it has one. */
  datatype Debouncer = Debouncer(deadline: Option<nat>)

  /**
   * The instance fields `clickedOnce`, `_delayedClick` and `_hideTimeout`, the
   * `isExpanded` state, the `model` prop, the timers still scheduled that no
   * field names any more (`orphans` for clicks, `strayHides` for hiding), the
   * clock, and every request sent so far.
   */
  datatype ItemState = ItemState(
    model: Item,
    clickedOnce: bool,
    delayedClick: Option<Debouncer>,
    orphans: seq<nat>,
    isExpanded: bool,
    hideTimeout: Option<nat>,
    strayHides: seq<nat>,
    now: nat,
    requests: seq<Request>)

  function Initial(model: Item): ItemState {
    ItemState(model, false, None, [], false, None, [], 0, [])
  }

  datatype Event =
    | Click
    | Tick
    | ModelChange(next: Item)
    | ToggleMenu
    | PickEntry(entry: MenuEntry)
    | MouseOut
    | MouseOver

  function PendingOf(d: Option<Debouncer>): seq<nat> {
    if d.Some? && d.value.deadline.Some? then [d.value.deadline.value] else []
  }

  /** Deadlines of all scheduled deferred `_onClick` calls. */
  function Pending(s: ItemState): seq<nat> {
    PendingOf(s.delayedClick) + s.orphans
  }

  /** Deadlines of all scheduled `_hideMenu` calls. */
  function HideTimers(s: ItemState): seq<nat> {
    (if s.hideTimeout.Some? then [s.hideTimeout.value] else []) + s.strayHides
  }

  /** How many of the deadlines `ds` have come at time `t`. */
  function Due(ds: seq<nat>, t: nat): (n: nat)
    ensures n <= |ds|
    ensures n == 0 <==> forall d :: d in ds ==> d > t
    decreases |ds|
  {
    if ds == [] then 0
    else
      assert ds[0] in ds && forall d :: d in ds[1..] ==> d in ds;
      assert forall d :: d in ds ==> d == ds[0] || d in ds[1..];
      (if ds[0] <= t then 1 else 0) + Due(ds[1..], t)
  }

  /** The deadlines of `ds` still to come after time `t`, in order. */
  function Later(ds: seq<nat>, t: nat): (r: seq<nat>)
    ensures forall d :: d in r <==> d in ds && d > t
    ensures |r| + Due(ds, t) == |ds|
    decreases |ds|
  {
    if ds == [] then []
    else if ds[0] <= t then Later(ds[1..], t)
    else [ds[0]] + Later(ds[1..], t)
  }

  lemma {:induction false} DueAppend(a: seq<nat>, b: seq<nat>, t: nat)
    ensures Due(a + b, t) == Due(a, t) + Due(b, t)
    decreases |a|
  {
    if a != [] {
      assert (a + b)[1..] == a[1..] + b;
      DueAppend(a[1..], b, t);
    } else {
      assert a + b == b;
    }
  }

  function Repeat(r: Request, n: nat): (rs: seq<Request>)
    ensures |rs| == n && forall i :: 0 <= i < n ==> rs[i] == r
  {
    seq(n, _ => r)
  }

  /** `handleClick`. */
  function HandleClick(s: ItemState): (t: ItemState)
    ensures t.clickedOnce == !s.clickedOnce
    ensures !s.clickedOnce ==> t.delayedClick == Some(Debouncer(Some(s.now + ClickWindow)))
    ensures s.clickedOnce ==> t.delayedClick == Some(Debouncer(None))
    ensures t == s.(clickedOnce := t.clickedOnce, delayedClick := t.delayedClick)
  {
    var d := if s.delayedClick.Some? then s.delayedClick.value else Debouncer(None);
    if s.clickedOnce then s.(delayedClick := Some(d.(deadline := None)), clickedOnce := false)
    else s.(delayedClick := Some(d.(deadline := Some(s.now + ClickWindow))), clickedOnce := true)
  }

  /** A new `model` prop followed by `componentDidUpdate`. */
  function ReceiveModel(s: ItemState, next: Item): (t: ItemState)
    ensures t.model == next
    ensures next.ref != s.model.ref && s.clickedOnce ==> !t.clickedOnce && t.delayedClick.None?
    ensures !(next.ref != s.model.ref && s.clickedOnce) ==> t == s.(model := next)
    ensures t == s.(model := next, clickedOnce := t.clickedOnce, delayedClick := t.delayedClick, orphans := t.orphans)
    ensures multiset(Pending(t)) == multiset(Pending(s))
    ensures t.requests == s.requests && t.now == s.now && t.isExpanded == s.isExpanded
  {
    if next.ref != s.model.ref && s.clickedOnce then
      s.(model := next, clickedOnce := false, delayedClick := None, orphans := s.orphans + PendingOf(s.delayedClick))
    else s.(model := next)
  }

  /** `_hideMenu`. */
  function HideExpanded(s: ItemState): (t: ItemState)
    ensures t == s.(isExpanded := false)
  {
    if s.isExpanded then s.(isExpanded := false) else s
  }

  /** `_toggle`. */
  function ToggleExpanded(s: ItemState): (t: ItemState)
    ensures t.isExpanded == !s.isExpanded
    ensures t == s.(isExpanded := t.isExpanded)
  {
    s.(isExpanded := !s.isExpanded)
  }

  /** Every deferred `_onClick` whose deadline has come at `s.now` fires, against the current model. */
  function FireClicks(s: ItemState): (t: ItemState)
    ensures t == s.(delayedClick := t.delayedClick, orphans := t.orphans, requests := t.requests)
    ensures t.delayedClick.Some? == s.delayedClick.Some?
    ensures t.requests == s.requests + Repeat(OnClickRequest(s.model), Due(Pending(s), s.now))
    ensures forall d :: d in Pending(t) <==> d in Pending(s) && d > s.now
    ensures |Pending(t)| + Due(Pending(s), s.now) == |Pending(s)|
  {
    var fires := PendingOf(s.delayedClick) != [] && s.delayedClick.value.deadline.value <= s.now;
    DueAppend(PendingOf(s.delayedClick), s.orphans, s.now);
    var fired := (if fires then 1 else 0) + Due(s.orphans, s.now);
    s.(delayedClick := if fires then Some(Debouncer(None)) else s.delayedClick,
       orphans := Later(s.orphans, s.now),
       requests := s.requests + Repeat(OnClickRequest(s.model), fired))
  }

  /** Every `_hideMenu` whose deadline has come at `s.now` fires. */
  function FireHides(s: ItemState): (t: ItemState)
    ensures t == s.(hideTimeout := t.hideTimeout, strayHides := t.strayHides, isExpanded := t.isExpanded)
    ensures forall d :: d in HideTimers(t) <==> d in HideTimers(s) && d > s.now
    ensures t.isExpanded == (s.isExpanded && Due(HideTimers(s), s.now) == 0)
  {
    var hideFires := s.hideTimeout.Some? && s.hideTimeout.value <= s.now;
    DueAppend(if s.hideTimeout.Some? then [s.hideTimeout.value] else [], s.strayHides, s.now);
    var t := s.(hideTimeout := if hideFires then None else s.hideTimeout, strayHides := Later(s.strayHides, s.now));
    if hideFires || Due(s.strayHides, s.now) > 0 then HideExpanded(t) else t
  }

  /** The clock moves one unit on, and every timer whose deadline has come fires. */
  function Advance(s: ItemState): (t: ItemState)
    ensures t.now == s.now + 1 && t.model == s.model && t.clickedOnce == s.clickedOnce
    ensures t.delayedClick.Some? == s.delayedClick.Some?
    ensures t.requests == s.requests + Repeat(OnClickRequest(s.model), Due(Pending(s), t.now))
    ensures forall d :: d in Pending(t) <==> d in Pending(s) && d > t.now
    ensures |Pending(t)| + Due(Pending(s), t.now) == |Pending(s)|
    ensures forall d :: d in HideTimers(t) <==> d in HideTimers(s) && d > t.now
    ensures t.isExpanded == (s.isExpanded && Due(HideTimers(s), t.now) == 0)
  {
    var c := FireClicks(s.(now := s.now + 1));
    assert Pending(c) == Pending(FireHides(c)) && HideTimers(c) == HideTimers(s);
    FireHides(c)
  }

  /** `_onMouseOut`: a new hide timer; the one `_hideTimeout` named before stays scheduled. */
  function PointerOut(s: ItemState): (t: ItemState)
    ensures t.hideTimeout == Some(s.now + HideDelay)
    ensures forall d :: d in HideTimers(t) <==> d in HideTimers(s) || d == s.now + HideDelay
    ensures t == s.(hideTimeout := t.hideTimeout, strayHides := t.strayHides)
  {
    var previous := if s.hideTimeout.Some? then [s.hideTimeout.value] else [];
    s.(hideTimeout := Some(s.now + HideDelay), strayHides := s.strayHides + previous)
  }

  /** `_onMouseOver`: clears the timer `_hideTimeout` names, and only that one. */
  function PointerOver(s: ItemState): (t: ItemState)
    ensures HideTimers(t) == s.strayHides
    ensures t == s.(hideTimeout := None)
  {
    s.(hideTimeout := None)
  }

  /** A click on an inline-menu entry: its request, then `toggle`. */
  function Pick(s: ItemState, entry: MenuEntry): (t: ItemState)
    ensures t.requests == s.requests + [EntryRequest(s.model, entry)]
    ensures t.isExpanded == !s.isExpanded
    ensures t == s.(requests := t.requests, isExpanded := t.isExpanded)
  {
    ToggleExpanded(s.(requests := s.requests + [EntryRequest(s.model, entry)]))
  }

  /**
   * The effect of one event. Only time moves the clock, and only time (a
   * deferred `_onClick`) and a menu pick send requests; the click and model
   * events leave the menu alone, and the menu and pointer events leave the
   * click state alone.
   */
  function Step(s: ItemState, e: Event): (t: ItemState)
    ensures !e.Tick? ==> t.now == s.now
    ensures e.Tick? ==> t.now == s.now + 1
    ensures !(e.Tick? || e.PickEntry?) ==> t.requests == s.requests
    ensures e.PickEntry? ==> t.requests == s.requests + [EntryRequest(s.model, e.entry)]
    ensures e.Click? || e.ModelChange? ==>
      t.isExpanded == s.isExpanded && t.hideTimeout == s.hideTimeout && t.strayHides == s.strayHides
    ensures e.ToggleMenu? || e.PickEntry? || e.MouseOut? || e.MouseOver? ==>
      t.clickedOnce == s.clickedOnce && Pending(t) == Pending(s)
  {
    match e
    case Click => HandleClick(s)
    case Tick => Advance(s)
    case ModelChange(next) => ReceiveModel(s, next)
    case ToggleMenu => ToggleExpanded(s)
    case PickEntry(entry) => Pick(s, entry)
    case MouseOut => PointerOut(s)
    case MouseOver => PointerOver(s)
  }

  function Run(s: ItemState, events: seq<Event>): ItemState
    decreases |events|
  {
    if events == [] then s else Run(Step(s, events[0]), events[1..])
  }

  function Ticks(n: nat): (ts: seq<Event>)
    ensures |ts| == n
  {
    seq(n, _ => Tick)
  }

  /**
   * The invariant the handlers keep: every timer is due within its delay, a
   * pending click exists only while `clickedOnce` is set, and `clickedOnce` is
   * set only while a debouncer exists.
   */
  predicate Valid(s: ItemState) {
    && (forall d :: d in Pending(s) ==> s.now < d <= s.now + ClickWindow)
    && (forall d :: d in HideTimers(s) ==> s.now < d <= s.now + HideDelay)
    && (PendingOf(s.delayedClick) != [] ==> s.clickedOnce)
    && (s.clickedOnce ==> s.delayedClick.Some?)
  }

  lemma InitialValid(model: Item)
    ensures Valid(Initial(model))
  {
  }

  lemma ClickKeepsValid(s: ItemState)
    requires Valid(s)
    ensures Valid(HandleClick(s))
  {
    var t := HandleClick(s);
    assert HideTimers(t) == HideTimers(s);
    assert Pending(t) == PendingOf(t.delayedClick) + s.orphans;
    assert forall d :: d in s.orphans ==> d in Pending(s);
  }

  lemma TickKeepsValid(s: ItemState)
    requires Valid(s)
    ensures Valid(Advance(s))
  {
    var t := Advance(s);
    assert forall d :: d in Pending(t) ==> d in Pending(s);
  }

  lemma ReceiveModelKeepsValid(s: ItemState, next: Item)
    requires Valid(s)
    ensures Valid(ReceiveModel(s, next))
  {
    var t := ReceiveModel(s, next);
    assert HideTimers(t) == HideTimers(s);
    forall d | d in Pending(t) ensures t.now < d <= t.now + ClickWindow {
      assert d in multiset(Pending(t));
      assert d in multiset(Pending(s));
      assert d in Pending(s);
    }
  }

  lemma MenuEventKeepsValid(s: ItemState, e: Event)
    requires Valid(s) && (e.ToggleMenu? || e.PickEntry? || e.MouseOut? || e.MouseOver?)
    ensures Valid(Step(s, e))
  {
    var t := Step(s, e);
    assert Pending(t) == Pending(s);
    if e.MouseOver? {
      assert HideTimers(t) == s.strayHides;
      assert forall d :: d in s.strayHides ==> d in HideTimers(s);
    } else if !e.MouseOut? {
      assert HideTimers(t) == HideTimers(s);
    }
  }

  /** Every event keeps the invariant, so every reachable state satisfies it. */
  lemma StepPreservesValid(s: ItemState, e: Event)
    requires Valid(s)
    ensures Valid(Step(s, e))
  {
    match e
    case Click => ClickKeepsValid(s);
    case Tick => TickKeepsValid(s);
    case ModelChange(next) => ReceiveModelKeepsValid(s, next);
    case _ => MenuEventKeepsValid(s, e);
  }

  lemma RunCons(s: ItemState, e: Event, rest: seq<Event>)
    ensures Run(s, [e] + rest) == Run(Step(s, e), rest)
  {
    assert ([e] + rest)[1..] == rest;
  }

  lemma {:induction false} RunAppend(s: ItemState, a: seq<Event>, b: seq<Event>)
    ensures Run(s, a + b) == Run(Run(s, a), b)
    decreases |a|
  {
    if a == [] {
      assert a + b == b;
    } else {
      assert a + b == [a[0]] + (a[1..] + b);
      RunCons(s, a[0], a[1..] + b);
      assert a == [a[0]] + a[1..];
      RunCons(s, a[0], a[1..]);
      RunAppend(Step(s, a[0]), a[1..], b);
    }
  }

  lemma TicksCons(n: nat)
    requires n > 0
    ensures Ticks(n) == [Tick] + Ticks(n - 1)
  {
  }

  /** With no click pending, time passing sends nothing and leaves the click fields alone. */
  lemma {:induction false} QuietTicks(s: ItemState, n: nat)
    requires Pending(s) == []
    ensures var r := Run(s, Ticks(n));
      && r.requests == s.requests && r.model == s.model && r.now == s.now + n
      && r.clickedOnce == s.clickedOnce && r.delayedClick == s.delayedClick && Pending(r) == []
    decreases n
  {
    if n > 0 {
      TicksCons(n);
      RunCons(s, Tick, Ticks(n - 1));
      var s1 := Advance(s);
      assert Due(Pending(s), s1.now) == 0;
      QuietTicks(s1, n - 1);
    } else {
      assert Ticks(0) == [];
    }
  }

  /**
   * With exactly one click pending, due at `d`: before `d` nothing is sent and
   * the timer stays put; from `d` on it has fired once, for the current model.
   */
  lemma {:induction false} OneTimerTicks(s: ItemState, n: nat, d: nat)
    requires Pending(s) == [d] && s.now < d
    ensures var r := Run(s, Ticks(n));
      && r.model == s.model && r.now == s.now + n && r.clickedOnce == s.clickedOnce
      && r.delayedClick.Some? == s.delayedClick.Some?
      && (s.now + n < d ==> r.requests == s.requests && r.delayedClick == s.delayedClick && r.orphans == s.orphans)
      && (d <= s.now + n ==> r.requests == s.requests + [OnClickRequest(s.model)] && Pending(r) == [])
    decreases n
  {
    if n == 0 {
      assert Ticks(0) == [];
    } else {
      TicksCons(n);
      RunCons(s, Tick, Ticks(n - 1));
      var s1 := Advance(s);
      if d == s.now + 1 {
        assert Due(Pending(s), s1.now) == 1;
        assert Repeat(OnClickRequest(s.model), 1) == [OnClickRequest(s.model)];
        QuietTicks(s1, n - 1);
      } else {
        assert Due(Pending(s), s1.now) == 0;
        assert Repeat(OnClickRequest(s.model), 0) == [];
        assert s1.delayedClick == s.delayedClick && s1.orphans == s.orphans by {
          if PendingOf(s.delayedClick) == [] {
            assert s.orphans == [d];
          }
        }
        OneTimerTicks(s1, n - 1, d);
      }
    }
  }

  /** The state a click leaves behind when nothing was pending and `clickedOnce` was clear. */
  lemma FirstClick(s: ItemState)
    requires Pending(s) == [] && !s.clickedOnce
    ensures var c := HandleClick(s);
      && c.clickedOnce && Pending(c) == [s.now + ClickWindow] && c.requests == s.requests
      && c.model == s.model && c.now == s.now
  {
    assert s.orphans == [];
  }

  /** Two clicks less than the debounce wait apart send nothing, however long one waits afterwards. */
  lemma DoubleClickSendsNothing(s: ItemState, k: nat, n: nat)
    requires Pending(s) == [] && !s.clickedOnce && k < ClickWindow
    ensures var r := Run(s, [Click] + Ticks(k) + [Click] + Ticks(n));
      r.requests == s.requests && !r.clickedOnce && Pending(r) == []
  {
    var s1 := HandleClick(s);
    FirstClick(s);
    OneTimerTicks(s1, k, s.now + ClickWindow);
    var s2 := Run(s1, Ticks(k));
    var s3 := HandleClick(s2);
    assert s2.orphans == [];
    assert Pending(s3) == [];
    QuietTicks(s3, n);
    RunAppend(s, [Click] + Ticks(k) + [Click], Ticks(n));
    RunAppend(s, [Click] + Ticks(k), [Click]);
    RunAppend(s, [Click], Ticks(k));
    RunCons(s, Click, []);
    RunCons(s2, Click, []);
  }

  /** One click and at least the debounce wait of quiet sends exactly one request; `clickedOnce` stays set. */
  lemma SingleClickSendsOnce(s: ItemState, n: nat)
    requires Pending(s) == [] && !s.clickedOnce && n >= ClickWindow
    ensures var r := Run(s, [Click] + Ticks(n));
      r.requests == s.requests + [OnClickRequest(s.model)] && r.clickedOnce && Pending(r) == []
  {
    FirstClick(s);
    OneTimerTicks(HandleClick(s), n, s.now + ClickWindow);
    RunCons(s, Click, Ticks(n));
  }

  /** After a click has been resolved, the next click, however much later, sends nothing. */
  lemma NextClickSwallowed(s: ItemState, n: nat, m: nat)
    requires Pending(s) == [] && !s.clickedOnce && n >= ClickWindow
    ensures var r := Run(s, [Click] + Ticks(n) + [Click] + Ticks(m));
      r.requests == s.requests + [OnClickRequest(s.model)] && !r.clickedOnce
  {
    SingleClickSendsOnce(s, n);
    var s2 := Run(s, [Click] + Ticks(n));
    var s3 := HandleClick(s2);
    assert Pending(s3) == [] by {
      assert s2.orphans == [] by {
        assert Pending(s2) == PendingOf(s2.delayedClick) + s2.orphans;
      }
    }
    QuietTicks(s3, m);
    RunAppend(s, [Click] + Ticks(n) + [Click], Ticks(m));
    RunAppend(s, [Click] + Ticks(n), [Click]);
    RunCons(s2, Click, []);
  }

  /**
   * A new model arriving while a click is pending does not cancel it: the
   * dropped debouncer still fires, and sends the request for the new model.
   */
  lemma OrphanedClickStillSends(s: ItemState, next: Item, n: nat)
    requires Pending(s) == [] && !s.clickedOnce && next.ref != s.model.ref && n >= ClickWindow
    ensures var r := Run(s, [Click, ModelChange(next)] + Ticks(n));
      r.requests == s.requests + [OnClickRequest(next)] && !r.clickedOnce && r.delayedClick.None?
  {
    FirstClick(s);
    var s1 := HandleClick(s);
    var s2 := ReceiveModel(s1, next);
    assert s1.orphans == [];
    assert Pending(s2) == [s.now + ClickWindow];
    OneTimerTicks(s2, n, s.now + ClickWindow);
    assert [Click, ModelChange(next)] + Ticks(n) == [Click] + ([ModelChange(next)] + Ticks(n));
    RunCons(s, Click, [ModelChange(next)] + Ticks(n));
    RunCons(s1, ModelChange(next), Ticks(n));
  }

  /** A click, a new model and another click leave two clicks scheduled at once. */
  lemma TwoClicksScheduled(s: ItemState, next: Item)
    requires Pending(s) == [] && !s.clickedOnce && next.ref != s.model.ref
    ensures |Pending(Run(s, [Click, ModelChange(next), Click]))| == 2
  {
    FirstClick(s);
    var s1 := HandleClick(s);
    var s2 := ReceiveModel(s1, next);
    assert s1.orphans == [];
    RunCons(s, Click, [ModelChange(next), Click]);
    RunCons(s1, ModelChange(next), [Click]);
    RunCons(s2, Click, []);
    assert [Click, ModelChange(next), Click][1..] == [ModelChange(next), Click];
  }

  /** `_toggle` twice restores the menu; `_hideMenu` twice is `_hideMenu` once. */
  lemma MenuLaws(s: ItemState)
    ensures ToggleExpanded(ToggleExpanded(s)) == s
    ensures HideExpanded(HideExpanded(s)) == HideExpanded(s)
    ensures !HideExpanded(ToggleExpanded(s)).isExpanded
  {
  }

  /**
   * Picking an entry the open menu offers sends that entry's request, for the
   * parent or the item as `PlayTarget` says, and closes the menu.
   */
  lemma OfferedPick(s: ItemState, entry: MenuEntry)
    requires entry in MenuEntries(s.model, s.isExpanded)
    ensures var t := Step(s, PickEntry(entry));
      && s.isExpanded && !t.isExpanded
      && |t.requests| == |s.requests| + 1
      && var r := t.requests[|s.requests|];
      && (r.RemoveService? <==> !PlayNowOnly(s.model) && s.model.action == ServiceAction)
      && (r.RemoveService? ==> r.service == s.model.service)
      && (!r.RemoveService? ==> r.item == PlayTarget(s.model))
      && (PlayNowOnly(s.model) ==> r.PlayNow?)
  {
  }

  /** The list item component's instance state. */
  class BrowserListItem {
    var model: Item
    var clickedOnce: bool
    var delayedClick: Option<Debouncer>
    var orphans: seq<nat>
    var isExpanded: bool
    var hideTimeout: Option<nat>
    var strayHides: seq<nat>
    var now: nat
    var requests: seq<Request>

    function State(): ItemState
      reads this
    {
      ItemState(model, clickedOnce, delayedClick, orphans, isExpanded, hideTimeout, strayHides, now, requests)
    }

    constructor (m: Item)
      ensures State() == Initial(m)
    {
      model, clickedOnce, delayedClick, orphans := m, false, None, [];
      isExpanded, hideTimeout, strayHides := false, None, [];
      now, requests := 0, [];
    }

    /** `_onClick`: sends the request for the current model. */
    method OnClick()
      modifies this
      ensures State() == old(State()).(requests := old(requests) + [OnClickRequest(model)])
    {
      var item := model;
      if PlaysOnClick(item) {
        requests := requests + [PlayNow(item)];
      } else if item.action == AddServiceAction {
        requests := requests + [AddService(item)];
      } else {
        requests := requests + [Select(item)];
      }
    }

    method HandleClick()
      modifies this
      ensures State() == Step(old(State()), Click)
    {
      if delayedClick.None? {
        delayedClick := Some(Debouncer(None));
      }
      if clickedOnce {
        delayedClick := Some(delayedClick.value.(deadline := None));
        clickedOnce := false;
      } else {
        delayedClick := Some(delayedClick.value.(deadline := Some(now + ClickWindow)));
        clickedOnce := true;
      }
    }

    /** The `model` prop changes to `next`, then `componentDidUpdate` runs. */
    method ComponentDidUpdate(next: Item)
      modifies this
      ensures State() == Step(old(State()), ModelChange(next))
    {
      var previous := model;
      model := next;
      if model.ref != previous.ref && clickedOnce {
        clickedOnce := false;
        orphans := orphans + PendingOf(delayedClick);
        delayedClick := None;
      }
    }

    method Toggle()
      modifies this
      ensures State() == Step(old(State()), ToggleMenu)
    {
      isExpanded := !isExpanded;
    }

    method HideMenu()
      modifies this
      ensures State() == HideExpanded(old(State()))
    {
      if isExpanded {
        isExpanded := false;
      }
    }

    method OnMouseOut()
      modifies this
      ensures State() == Step(old(State()), MouseOut)
    {
      if hideTimeout.Some? {
        strayHides := strayHides + [hideTimeout.value];
      }
      hideTimeout := Some(now + HideDelay);
    }

    method OnMouseOver()
      modifies this
      ensures State() == Step(old(State()), MouseOver)
    {
      hideTimeout := None;
    }

    /** A click on the inline-menu entry `entry`. */
    method PickEntry(entry: MenuEntry)
      modifies this
      ensures State() == Step(old(State()), Event.PickEntry(entry))
    {
      requests := requests + [EntryRequest(model, entry)];
      Toggle();
    }

    /** `_onClick` runs `n` times in a row. */
    method RunOnClick(n: nat)
      modifies this
      ensures State() == old(State()).(requests := old(requests) + Repeat(OnClickRequest(old(model)), n))
    {
      var i := 0;
      while i < n
        invariant 0 <= i <= n
        invariant State() == old(State()).(requests := old(requests) + Repeat(OnClickRequest(old(model)), i))
      {
        OnClick();
        assert Repeat(OnClickRequest(model), i + 1) == Repeat(OnClickRequest(model), i) + [OnClickRequest(model)];
        i := i + 1;
      }
    }

    /** The clock moves one unit on. */
    method AdvanceClock()
      modifies this
      ensures State() == old(State()).(now := old(now) + 1)
    {
      now := now + 1;
    }

    /** The deferred `_onClick` calls due now fire, one `_onClick` each. */
    method FireDueClicks()
      modifies this
      ensures State() == FireClicks(old(State()))
    {
      var fired := Due(orphans, now);
      orphans := Later(orphans, now);
      if PendingOf(delayedClick) != [] && delayedClick.value.deadline.value <= now {
        delayedClick := Some(Debouncer(None));
        fired := fired + 1;
      }
      RunOnClick(fired);
    }

    /** The `_hideMenu` timers due now fire. */
    method FireDueHides()
      modifies this
      ensures State() == FireHides(old(State()))
    {
      var hiding := Due(strayHides, now) > 0;
      strayHides := Later(strayHides, now);
      if hideTimeout.Some? && hideTimeout.value <= now {
        hideTimeout := None;
        hiding := true;
      }
      if hiding {
        HideMenu();
      }
    }

    /** One unit of time passes and the timers due fire: the composition `Advance` is defined as. */
    method Tick()
      modifies this
      ensures State() == FireHides(FireClicks(old(State()).(now := old(now) + 1)))
    {
      AdvanceClock();
      FireDueClicks();
      FireDueHides();
    }
  }
}
