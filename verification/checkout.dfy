/** The checkout page's step counter. The page holds one integer `step`
    (1 shipping, 2 payment, 3 review) and two buttons: Continue, which
    advances below the last step and does nothing on it (order submission
    is left empty), and Back, which is rendered only past the first step.
    Neither button checks any form field. */
module Checkout {
  import opened Remote
  import opened Arithmetic

  /** The three panels of the checkout card. */
  datatype Panel = Shipping | Payment | Review

  /** The two buttons under the panel. */
  datatype Action = Continue | Back

  /** `useState(1)`. */
  const InitialStep: int := 1
  const LastStep: int := 3

  predicate ValidStep(step: int)
  {
    InitialStep <= step <= LastStep
  }

  /** The Back button exists only past the first step. */
  predicate BackShown(step: int)
  {
    step > InitialStep
  }

  /** The Continue handler: advance while below the last step; on the last
      step the (empty) order submission leaves the step alone. */
  function OnContinue(step: int): (next: int)
    ensures ValidStep(step) ==> ValidStep(next)
    ensures next == step <==> step >= LastStep
    ensures next != step ==> next == step + 1
  {
    if step < LastStep then step + 1 else step
  }

  /** Pressing a button: `None` when the button is not rendered. */
  function Press(step: int, action: Action): (r: Option<int>)
    ensures action == Continue ==> r == Some(OnContinue(step))
    ensures r.None? <==> action == Back && step <= InitialStep
    ensures action == Back && r.Some? ==> r.value == step - 1
  {
    match action
    case Continue => Some(OnContinue(step))
    case Back => if BackShown(step) then Some(step - 1) else None
  }

  /** The step after a sequence of presses, `None` as soon as a pressed
      button is not on the page. */
  function Run(step: int, actions: seq<Action>): Option<int>
    decreases |actions|
  {
    if |actions| == 0 then Some(step)
    else match Press(step, actions[0])
      case None => None
      case Some(next) => Run(next, actions[1..])
  }

  /** Every available action keeps the step in 1..3. */
  lemma PressKeepsValid(step: int, action: Action)
    requires ValidStep(step)
    ensures Press(step, action).Some? ==> ValidStep(Press(step, action).value)
  {
  }

  /** Any sequence of presses from a valid step, in particular from the
      initial one, ends on a valid step. */
  lemma {:induction false} RunKeepsValid(step: int, actions: seq<Action>)
    requires ValidStep(step)
    ensures Run(step, actions).Some? ==> ValidStep(Run(step, actions).value)
    decreases |actions|
  {
    if |actions| > 0 {
      var p := Press(step, actions[0]);
      if p.Some? {
        PressKeepsValid(step, actions[0]);
        RunKeepsValid(p.value, actions[1..]);
      }
    }
  }

  function Continues(n: nat): (r: seq<Action>)
    ensures |r| == n && forall i :: 0 <= i < n ==> r[i] == Continue
  {
    if n == 0 then [] else [Continue] + Continues(n - 1)
  }

  /** `n` presses of Continue climb `n` steps and then stay on the last. */
  lemma {:induction false} ContinuesClimb(step: int, n: nat)
    requires ValidStep(step)
    ensures Run(step, Continues(n)) == Some(Min(step + n, LastStep))
    decreases n
  {
    if n > 0 {
      assert Continues(n)[1..] == Continues(n - 1);
      ContinuesClimb(OnContinue(step), n - 1);
    }
  }

  /** Every step is reachable from the initial one. */
  lemma EveryStepReachable(step: int)
    requires ValidStep(step)
    ensures Run(InitialStep, Continues(step - 1)) == Some(step)
  {
    ContinuesClimb(InitialStep, step - 1);
  }

  /** Back undoes Continue below the last step, and Continue undoes Back. */
  lemma BackUndoesContinue(step: int)
    requires ValidStep(step)
    ensures step < LastStep ==> Run(step, [Continue, Back]) == Some(step)
    ensures step > InitialStep ==> Run(step, [Back, Continue]) == Some(step)
  {
    assert [Continue, Back][1..] == [Back];
    assert [Back, Continue][1..] == [Continue];
  }

  /** The panels rendered for a step: each `{step === k && ...}` block. */
  function ShownPanels(step: int): set<Panel>
  {
    (if step == InitialStep then {Shipping} else {})
    + (if step == 2 then {Payment} else {})
    + (if step == LastStep then {Review} else {})
  }

  /** The panel that belongs to a valid step. */
  function PanelOf(step: int): Panel
    requires ValidStep(step)
  {
    if step == InitialStep then Shipping else if step == 2 then Payment else Review
  }

  /** Exactly one panel is shown on every valid step, a different one for
      each step; no panel is shown otherwise. */
  lemma ExactlyOnePanel(step: int)
    ensures ValidStep(step) ==> ShownPanels(step) == {PanelOf(step)}
    ensures !ValidStep(step) ==> ShownPanels(step) == {}
    ensures forall s, t :: ValidStep(s) && ValidStep(t) && PanelOf(s) == PanelOf(t) ==> s == t
  {
  }

  /** The progress indicator: circle k (1..3) is filled iff `step >= k`,
      and the bar before circle k (2..3) likewise. */
  function Indicators(step: int): (r: seq<bool>)
    ensures |r| == 3
  {
    [step >= 1, step >= 2, step >= 3]
  }

  function CountTrue(bs: seq<bool>): nat
  {
    if |bs| == 0 then 0 else (if bs[0] then 1 else 0) + CountTrue(bs[1..])
  }

  /** The filled circles form a prefix, and on a valid step their number is
      the step itself. */
  lemma IndicatorsArePrefix(step: int)
    ensures forall j, k :: 0 <= j <= k < 3 && Indicators(step)[k] ==> Indicators(step)[j]
    ensures ValidStep(step) ==> CountTrue(Indicators(step)) == step
  {
    var r := Indicators(step);
    assert r[1..] == [step >= 2, step >= 3];
    assert r[1..][1..] == [step >= 3];
    assert r[1..][1..][1..] == [];
    assert CountTrue(r[1..][1..]) == (if step >= 3 then 1 else 0);
    assert CountTrue(r[1..]) == (if step >= 2 then 1 else 0) + (if step >= 3 then 1 else 0);
  }

  /** The primary button's label. */
  function ButtonLabel(step: int): string
  {
    if step == LastStep then "Place Order" else "Continue"
  }

  /** On a valid step the primary button reads 'Place Order' exactly on the
      review step, where pressing it leaves the step unchanged; Back is
      offered everywhere except the shipping step. */
  lemma LabelAndButtons(step: int)
    requires ValidStep(step)
    ensures ButtonLabel(step) == "Place Order" <==> PanelOf(step) == Review
    ensures ButtonLabel(step) == "Place Order" <==> OnContinue(step) == step
    ensures BackShown(step) <==> PanelOf(step) != Shipping
  {
    assert "Continue"[0] != "Place Order"[0];
  }
}
