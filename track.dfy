/**
 * The logic of one track of lib/components/derby/Track.tsx: the buy and
 * sell form flags of useExchangeFormToggle with the effect that follows
 * them, the price percentage a horse is drawn at, and which trade
 * controls the track renders.
 *
 * React state updates are applied at once; the effect on
 * [buyFormShown, sellFormShown] runs right after a handler that changed
 * one of them; the 700 ms timer of the effect is a pending update that
 * the environment fires later with TimerFires.
 */
module Track {
  import opened Common
  import opened JsMap
  import opened Market

  class FormToggle {
    var formShown: bool
    var buyFormShown: bool
    var sellFormShown: bool
    var isAnimating: bool
    /** The `show` value of each scheduled timer, oldest first. */
    var pending: seq<bool>

    /** The buy and the sell form are never requested together. */
    predicate Valid()
      reads this
    {
      !(buyFormShown && sellFormShown)
    }

    /** Whether a form is requested. */
    function Show(): bool
      reads this
    {
      buyFormShown || sellFormShown
    }

    /** The states the page reaches: settled, with formShown matching the
        request and nothing pending; or in the middle of the one timer that
        will bring formShown to the request, with the controls disabled. */
    predicate UiInvariant()
      reads this
    {
      && Valid()
      && ((pending == [] && !isAnimating && formShown == Show())
          || (pending == [Show()] && isAnimating && formShown != Show()))
    }

    constructor ()
      ensures !formShown && !buyFormShown && !sellFormShown && !isAnimating && pending == []
      ensures UiInvariant()
    {
      formShown, buyFormShown, sellFormShown, isAnimating := false, false, false, false;
      pending := [];
    }

    /** The effect: with a form shown and still requested, the animation
        ends at once; when formShown differs from the request, a timer is
        scheduled that will set it. */
    method RunEffect()
      modifies this
      ensures buyFormShown == old(buyFormShown) && sellFormShown == old(sellFormShown)
      ensures formShown == old(formShown)
      ensures old(formShown) && Show() ==> !isAnimating && pending == old(pending)
      ensures !(old(formShown) && Show()) ==> isAnimating == old(isAnimating)
      ensures !(old(formShown) && Show()) && formShown != Show() ==> pending == old(pending) + [Show()]
      ensures formShown == Show() ==> pending == old(pending)
    {
      var show := buyFormShown || sellFormShown;
      if formShown && show {
        isAnimating := false;
        formShown := show;
        return;
      }
      if (formShown && !show) || (!formShown && show) {
        pending := pending + [show];
      }
    }

    /** toggleBuyForm: the sell form closes and the buy form flips; the
        animation starts, and the effect follows. From a page state the
        user can click in (nothing animating), the invariant holds again. */
    method ToggleBuyForm()
      modifies this
      ensures buyFormShown == !old(buyFormShown) && !sellFormShown
      ensures formShown == old(formShown)
      ensures old(formShown) && buyFormShown ==> !isAnimating && pending == old(pending)
      ensures !(old(formShown) && buyFormShown) ==> isAnimating
      ensures !(old(formShown) && buyFormShown) ==>
        pending == old(pending) + (if old(formShown) != buyFormShown then [buyFormShown] else [])
      ensures old(UiInvariant()) && !old(isAnimating) ==> UiInvariant()
    {
      isAnimating := true;
      sellFormShown := false;
      buyFormShown := !buyFormShown;
      RunEffect();
    }

    /** toggleSellForm: the mirror image of ToggleBuyForm. */
    method ToggleSellForm()
      modifies this
      ensures sellFormShown == !old(sellFormShown) && !buyFormShown
      ensures formShown == old(formShown)
      ensures old(formShown) && sellFormShown ==> !isAnimating && pending == old(pending)
      ensures !(old(formShown) && sellFormShown) ==> isAnimating
      ensures !(old(formShown) && sellFormShown) ==>
        pending == old(pending) + (if old(formShown) != sellFormShown then [sellFormShown] else [])
      ensures old(UiInvariant()) && !old(isAnimating) ==> UiInvariant()
    {
      isAnimating := true;
      buyFormShown := false;
      sellFormShown := !sellFormShown;
      RunEffect();
    }

    /** closeForm: both forms close and the animation starts; the effect
        runs only when a form was requested, and then schedules the timer
        that hides the form. The close button is rendered only while
        formShown holds, which keeps the invariant. */
    method CloseForm()
      modifies this
      ensures !buyFormShown && !sellFormShown && isAnimating && formShown == old(formShown)
      ensures pending == old(pending) + (if old(Show()) && old(formShown) then [false] else [])
      ensures old(UiInvariant()) && old(formShown) ==> UiInvariant()
    {
      var changed := buyFormShown || sellFormShown;
      isAnimating := true;
      buyFormShown := false;
      sellFormShown := false;
      if changed {
        RunEffect();
      }
    }

    /** The oldest timer fires: formShown takes its value and the animation
        ends. In the invariant, the page is settled afterwards. */
    method TimerFires()
      requires pending != []
      modifies this
      ensures formShown == old(pending[0]) && !isAnimating && pending == old(pending[1..])
      ensures buyFormShown == old(buyFormShown) && sellFormShown == old(sellFormShown)
      ensures old(UiInvariant()) ==> UiInvariant() && pending == [] && formShown == Show()
    {
      formShown := pending[0];
      isAnimating := false;
      pending := pending[1..];
    }
  }

  /** The price a horse is drawn at, in percent, and whether its category
      is overbought. */
  datatype TrackPrice = TrackPrice(percent: real, overbought: bool)

  /** The price effect: the leader of a resolved market is drawn at 100 and
      keeps its overbought flag; otherwise the ZTG price of the category is
      read (a missing entry throws, None), a price above 1 marks the
      category overbought and is drawn at 100, and any other price at 100
      times the price. */
  function PriceEffect(isLeader: bool, status: MarketStatus, ztgPrices: seq<(string, real)>,
                       category: string, previous: TrackPrice): (r: Option<TrackPrice>)
    ensures isLeader && status == Resolved ==> r == Some(TrackPrice(100.0, previous.overbought))
    ensures !(isLeader && status == Resolved) ==> (r.None? <==> Lookup(ztgPrices, category).None?)
    ensures !(isLeader && status == Resolved) && r.Some? ==>
      (r.value.overbought <==> Lookup(ztgPrices, category).value > 1.0)
    ensures r.Some? && !r.value.overbought && !(isLeader && status == Resolved) ==>
      r.value.percent == 100.0 * Lookup(ztgPrices, category).value
  {
    if isLeader && status == Resolved then Some(TrackPrice(100.0, previous.overbought))
    else
      var v := Lookup(ztgPrices, category);
      if v.None? then None
      else if v.value > 1.0 then Some(TrackPrice(100.0, true))
      else Some(TrackPrice(v.value * 100.0, false))
  }

  /** A non-negative price puts the horse between 0 and 100 percent, at 100
      for every overbought category. */
  lemma PercentClamped(isLeader: bool, status: MarketStatus, ztgPrices: seq<(string, real)>,
                       category: string, previous: TrackPrice)
    requires Lookup(ztgPrices, category).Some? ==> Lookup(ztgPrices, category).value >= 0.0
    ensures var r := PriceEffect(isLeader, status, ztgPrices, category, previous);
      r.Some? ==> 0.0 <= r.value.percent <= 100.0 && (r.value.overbought && !(isLeader && status == Resolved) ==> r.value.percent == 100.0)
  {
  }

  /** A higher price never draws the horse further back. */
  lemma PercentMonotone(status: MarketStatus, ztgPrices: seq<(string, real)>, c1: string, c2: string,
                        previous: TrackPrice)
    requires Lookup(ztgPrices, c1).Some? && Lookup(ztgPrices, c2).Some?
    requires Lookup(ztgPrices, c1).value <= Lookup(ztgPrices, c2).value
    ensures PriceEffect(false, status, ztgPrices, c1, previous).value.percent
         <= PriceEffect(false, status, ztgPrices, c2, previous).value.percent
  {
  }

  /** What a track renders for trading. */
  datatype TrackControls = TrackControls(sellButton: bool, buyButton: bool,
                                         buyForm: bool, sellForm: bool,
                                         buyFormOpen: bool, sellFormOpen: bool)

  /** Trade buttons and forms need an active market; an overbought
      category has no buy button and no buy form; a form is open when it is
      rendered and requested. */
  function ControlsOf(status: MarketStatus, overbought: bool, buyFormShown: bool, sellFormShown: bool): (c: TrackControls)
    ensures status != Active ==> !c.sellButton && !c.buyButton && !c.buyForm && !c.sellForm
    ensures status == Active ==> c.sellButton && c.sellForm && (c.buyButton <==> !overbought) && (c.buyForm <==> !overbought)
    ensures c.buyFormOpen <==> c.buyForm && buyFormShown
    ensures c.sellFormOpen <==> c.sellForm && sellFormShown
  {
    var active := status == Active;
    TrackControls(active, active && !overbought, active && !overbought, active,
                  active && !overbought && buyFormShown, active && sellFormShown)
  }

  /** With valid form flags, at most one form is open, and no buy form opens
      on an overbought category or outside an active market. */
  lemma AtMostOneFormOpen(toggle: FormToggle, status: MarketStatus, overbought: bool)
    requires toggle.Valid()
    ensures var c := ControlsOf(status, overbought, toggle.buyFormShown, toggle.sellFormShown);
      && !(c.buyFormOpen && c.sellFormOpen)
      && (c.buyFormOpen ==> status == Active && !overbought)
      && (c.sellFormOpen ==> status == Active)
  {
  }
}
