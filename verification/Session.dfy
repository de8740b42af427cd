/** The state folded from one session's events: src/aether/ml/session.py. */
module Sessions {
  import opened Prelude

  const SESSION_TIMEOUT_SECONDS: int := 1800

  datatype EventType = ViewEvent | Click | Search | Cart | RemoveFromCart | Purchase | Other

  /** Empty strings stand for fields the event does not carry. */
  datatype Event = Event(
    session: string, user: string, device: Option<string>, ts: int, kind: EventType,
    product: string, price: Option<real>, category: string, brand: string)

  /** A running sum, count and maximum. */
  datatype Tally<T> = Tally(sum: T, count: nat, max: T)

  /** The fields of `SessionState`. */
  datatype Session = Session(
    id: string, user: string, device: Option<string>, firstTs: int, lastTs: int,
    events: nat, views: nat, clicks: nat, searches: nat, cartAdds: nat, cartRemoves: nat, purchases: nat,
    cycleCartAdds: nat, cart: map<string, real>,
    products: set<string>, categories: set<string>, brands: set<string>,
    prices: Tally<real>, gaps: Tally<int>)
  {
    predicate HasOpenCart() { cycleCartAdds > 0 }

    predicate IsExpired(now: int, timeout: int) { now - lastTs > timeout }
  }

  function NewSession(id: string): Session {
    Session(id, "", None, 0, 0, 0, 0, 0, 0, 0, 0, 0, 0, map[], {}, {}, {}, Tally(0.0, 0, 0.0), Tally(0, 0, 0))
  }

  // ---- one event -------------------------------------------------------

  function Timed(s: Session, e: Event): Session {
    (if s.events == 0 then s.(firstTs := e.ts, user := e.user, device := e.device)
     else
       var gap := Max(0, e.ts - s.lastTs);
       s.(gaps := Tally(s.gaps.sum + gap, s.gaps.count + 1, Max(s.gaps.max, gap))))
      .(lastTs := e.ts, events := s.events + 1)
  }

  function Counted(s: Session, e: Event): Session {
    match e.kind
    case ViewEvent => s.(views := s.views + 1)
    case Click => s.(clicks := s.clicks + 1)
    case Search => s.(searches := s.searches + 1)
    case Cart => s.(cartAdds := s.cartAdds + 1)
    case RemoveFromCart => s.(cartRemoves := s.cartRemoves + 1)
    case Purchase => s.(purchases := s.purchases + 1, cart := map[], cycleCartAdds := 0)
    case Other => s
  }

  function Carted(s: Session, e: Event): Session {
    if e.product == "" then s
    else
      var seen := s.(products := s.products + {e.product});
      if e.kind == Cart then
        seen.(cycleCartAdds := s.cycleCartAdds + 1,
              cart := if e.price.Some? then s.cart[e.product := e.price.value] else s.cart)
      else if e.kind == RemoveFromCart then seen.(cart := s.cart - {e.product})
      else seen
  }

  function Tagged(s: Session, e: Event): Session {
    s.(categories := if e.category == "" then s.categories else s.categories + {e.category},
       brands := if e.brand == "" then s.brands else s.brands + {e.brand})
  }

  function Priced(s: Session, e: Event): Session {
    if e.price.None? then s
    else
      var p := e.price.value;
      s.(prices := Tally(s.prices.sum + p, s.prices.count + 1, if p > s.prices.max then p else s.prices.max))
  }

  function Step(s: Session, e: Event): Session {
    Priced(Tagged(Carted(Counted(Timed(s, e), e), e), e), e)
  }

  /** The state after `events`, in order. */
  function Fold(id: string, events: seq<Event>): Session {
    if events == [] then NewSession(id) else Step(Fold(id, events[..|events| - 1]), events[|events| - 1])
  }

  // ---- the object ------------------------------------------------------

  class SessionState {
    const id: string
    var user: string
    var device: Option<string>
    var firstTs: int
    var lastTs: int
    var events: nat
    var views: nat
    var clicks: nat
    var searches: nat
    var cartAdds: nat
    var cartRemoves: nat
    var purchases: nat
    var cycleCartAdds: nat
    var cart: map<string, real>
    var products: set<string>
    var categories: set<string>
    var brands: set<string>
    var prices: Tally<real>
    var gaps: Tally<int>

    function Value(): Session
      reads this
    {
      Session(id, user, device, firstTs, lastTs, events, views, clicks, searches, cartAdds, cartRemoves, purchases,
              cycleCartAdds, cart, products, categories, brands, prices, gaps)
    }

    constructor (id: string)
      ensures Value() == NewSession(id)
    {
      this.id := id;
      user, device, firstTs, lastTs := "", None, 0, 0;
      events, views, clicks, searches, cartAdds, cartRemoves, purchases := 0, 0, 0, 0, 0, 0, 0;
      cycleCartAdds, cart, products, categories, brands := 0, map[], {}, {}, {};
      prices, gaps := Tally(0.0, 0, 0.0), Tally(0, 0, 0);
    }

    /** Folds one event in. */
    method Update(e: Event)
      modifies this
      ensures Value() == Step(old(Value()), e)
    {
      Time(e);
      Count(e);
      Touch(e);
      Tag(e);
      Price(e);
    }

    /** A snapshot that later updates do not reach. */
    method Copy() returns (clone: SessionState)
      ensures fresh(clone) && clone.Value() == Value()
    {
      clone := new SessionState.From(Value());
    }

    constructor From(s: Session)
      ensures Value() == s
    {
      id, user, device, firstTs, lastTs := s.id, s.user, s.device, s.firstTs, s.lastTs;
      events, views, clicks, searches := s.events, s.views, s.clicks, s.searches;
      cartAdds, cartRemoves, purchases, cycleCartAdds := s.cartAdds, s.cartRemoves, s.purchases, s.cycleCartAdds;
      cart, products, categories, brands := s.cart, s.products, s.categories, s.brands;
      prices, gaps := s.prices, s.gaps;
    }

    method Time(e: Event)
      modifies this
      ensures Value() == Timed(old(Value()), e)
    {
      if events == 0 {
        firstTs := e.ts;
        user := e.user;
        device := e.device;
      } else {
        var gap := Max(0, e.ts - lastTs);
        gaps := Tally(gaps.sum + gap, gaps.count + 1, Max(gaps.max, gap));
      }
      lastTs := e.ts;
      events := events + 1;
    }

    method Count(e: Event)
      modifies this
      ensures Value() == Counted(old(Value()), e)
    {
      match e.kind {
        case ViewEvent => views := views + 1;
        case Click => clicks := clicks + 1;
        case Search => searches := searches + 1;
        case Cart => cartAdds := cartAdds + 1;
        case RemoveFromCart => cartRemoves := cartRemoves + 1;
        case Purchase =>
          purchases := purchases + 1;
          cart := map[];
          cycleCartAdds := 0;
        case Other =>
      }
    }

    method Touch(e: Event)
      modifies this
      ensures Value() == Carted(old(Value()), e)
    {
      if e.product != "" {
        products := products + {e.product};
        if e.kind == Cart {
          cycleCartAdds := cycleCartAdds + 1;
          if e.price.Some? {
            cart := cart[e.product := e.price.value];
          }
        } else if e.kind == RemoveFromCart {
          cart := cart - {e.product};
        }
      }
    }

    method Tag(e: Event)
      modifies this
      ensures Value() == Tagged(old(Value()), e)
    {
      if e.category != "" {
        categories := categories + {e.category};
      }
      if e.brand != "" {
        brands := brands + {e.brand};
      }
    }

    method Price(e: Event)
      modifies this
      ensures Value() == Priced(old(Value()), e)
    {
      if e.price.Some? {
        var p := e.price.value;
        prices := Tally(prices.sum + p, prices.count + 1, if p > prices.max then p else prices.max);
      }
    }
  }

  // ---- what the fold remembers -----------------------------------------

  /** Adds to the cart since the last purchase, read off the events. */
  function OpenAdds(events: seq<Event>): nat {
    if events == [] then 0
    else
      var (before, e) := (OpenAdds(events[..|events| - 1]), events[|events| - 1]);
      if e.kind == Purchase then 0
      else if e.kind == Cart && e.product != "" then before + 1
      else before
  }

  /** The price `product` stands in the cart at: the last add since a purchase or its removal. */
  function CartPrice(events: seq<Event>, product: string): Option<real> {
    if events == [] then None
    else
      var (before, e) := (CartPrice(events[..|events| - 1], product), events[|events| - 1]);
      if e.kind == Purchase then None
      else if e.product != product || product == "" then before
      else if e.kind == RemoveFromCart then None
      else if e.kind == Cart && e.price.Some? then e.price
      else before
  }

  function LastGap(events: seq<Event>): int
    requires |events| >= 2
  {
    Max(0, events[|events| - 1].ts - events[|events| - 2].ts)
  }

  function GapTotal(events: seq<Event>): int {
    if |events| < 2 then 0 else GapTotal(events[..|events| - 1]) + LastGap(events)
  }

  /** What only `Timed` changes. */
  predicate SameTimes(s: Session, t: Session) {
    && s.id == t.id && s.user == t.user && s.device == t.device && s.firstTs == t.firstTs && s.lastTs == t.lastTs
    && s.events == t.events && s.gaps == t.gaps
  }

  lemma OthersKeepTimes(s: Session, e: Event)
    ensures SameTimes(s, Counted(s, e)) && SameTimes(s, Carted(s, e))
    ensures SameTimes(s, Tagged(s, e)) && SameTimes(s, Priced(s, e))
  {
  }

  lemma StepKeepsTimes(s: Session, e: Event)
    ensures SameTimes(Timed(s, e), Step(s, e))
  {
    hide Timed, Counted, Carted, Tagged, Priced;
    var t := Timed(s, e);
    OthersKeepTimes(t, e);
    OthersKeepTimes(Counted(t, e), e);
    OthersKeepTimes(Carted(Counted(t, e), e), e);
    OthersKeepTimes(Tagged(Carted(Counted(t, e), e), e), e);
  }

  lemma StepTimes(s: Session, e: Event)
    ensures var t := Step(s, e);
      && t.id == s.id && t.events == s.events + 1 && t.lastTs == e.ts
      && t.firstTs == (if s.events == 0 then e.ts else s.firstTs)
      && t.user == (if s.events == 0 then e.user else s.user)
      && t.device == (if s.events == 0 then e.device else s.device)
      && t.gaps.max == (if s.events == 0 then s.gaps.max else Max(s.gaps.max, Max(0, e.ts - s.lastTs)))
      && t.gaps.sum == s.gaps.sum + (if s.events == 0 then 0 else Max(0, e.ts - s.lastTs))
      && t.gaps.count == s.gaps.count + (if s.events == 0 then 0 else 1)
  {
    hide Step;
    StepKeepsTimes(s, e);
  }

  lemma StepCounts(s: Session, e: Event)
    ensures Step(s, e).cycleCartAdds
         == if e.kind == Purchase then 0
            else if e.kind == Cart && e.product != "" then s.cycleCartAdds + 1
            else s.cycleCartAdds
  {
    var t := Counted(Timed(s, e), e);
    assert t.cycleCartAdds == if e.kind == Purchase then 0 else s.cycleCartAdds;
    hide Timed, Counted;
  }

  lemma StepCart(s: Session, e: Event)
    ensures Step(s, e).cart
         == if e.kind == Purchase then map[]
            else if e.product == "" then s.cart
            else if e.kind == Cart && e.price.Some? then s.cart[e.product := e.price.value]
            else if e.kind == RemoveFromCart then s.cart - {e.product}
            else s.cart
  {
  }

  lemma {:induction false} FoldCounts(id: string, events: seq<Event>)
    ensures var s := Fold(id, events);
      && s.id == id && s.events == |events| && s.cycleCartAdds == OpenAdds(events)
      && s.gaps.sum == GapTotal(events) && s.gaps.count == Max(0, |events| - 1)
      && (events != [] ==> s.lastTs == events[|events| - 1].ts && s.firstTs == events[0].ts && s.user == events[0].user)
  {
    hide Step;
    if events != [] {
      FoldCounts(id, events[..|events| - 1]);
      StepCounts(Fold(id, events[..|events| - 1]), events[|events| - 1]);
      StepTimes(Fold(id, events[..|events| - 1]), events[|events| - 1]);
    }
  }

  lemma {:induction false} FoldCart(id: string, events: seq<Event>, product: string)
    ensures CartPrice(events, product)
         == if product in Fold(id, events).cart then Some(Fold(id, events).cart[product]) else None
  {
    hide Step;
    if events != [] {
      FoldCart(id, events[..|events| - 1], product);
      StepCart(Fold(id, events[..|events| - 1]), events[|events| - 1]);
    }
  }

  /** Something was added after position `i` and before any purchase that follows it. */
  ghost predicate AddStands(events: seq<Event>, i: nat) {
    i < |events| && events[i].kind == Cart && events[i].product != "" && !PurchaseAfter(events, i)
  }

  predicate PurchaseAfter(events: seq<Event>, i: nat) {
    exists k :: i < k < |events| && events[k].kind == Purchase
  }

  /** A cart is open exactly when some add has no purchase after it, whatever was removed since. */
  lemma {:induction false} OpenCartIff(id: string, events: seq<Event>)
    ensures Fold(id, events).HasOpenCart() <==> exists i: nat :: AddStands(events, i)
  {
    FoldCounts(id, events);
    OpenAddsIff(events);
  }

  lemma {:induction false} OpenAddsIff(events: seq<Event>)
    ensures OpenAdds(events) > 0 <==> exists i: nat :: AddStands(events, i)
  {
    if events != [] {
      var n := |events| - 1;
      var (init, e) := (events[..n], events[n]);
      OpenAddsIff(init);
      forall i: nat | i < n
        ensures AddStands(events, i) <==> AddStands(init, i) && e.kind != Purchase
      {
        if PurchaseAfter(init, i) {
          var k :| i < k < n && init[k].kind == Purchase;
          assert events[k].kind == Purchase;
        }
        if PurchaseAfter(events, i) && e.kind != Purchase {
          var k :| i < k < |events| && events[k].kind == Purchase;
          assert init[k].kind == Purchase;
        }
      }
      assert AddStands(events, n) <==> e.kind == Cart && e.product != "";
      if OpenAdds(init) > 0 && e.kind != Purchase {
        var i: nat :| AddStands(init, i);
        assert AddStands(events, i);
      }
      if i: nat :| AddStands(events, i) {
        assert i == n || AddStands(init, i);
      }
    }
  }

  /** A priced add after which neither a purchase nor a removal of the product follows. */
  ghost predicate ItemStands(events: seq<Event>, i: nat) {
    i < |events| && events[i].kind == Cart && events[i].product != "" && events[i].price.Some? && !GoneAfter(events, i)
  }

  predicate GoneAfter(events: seq<Event>, i: nat)
    requires i < |events|
  {
    exists k :: i < k < |events| && Clears(events[k], events[i].product)
  }

  predicate Clears(e: Event, product: string) {
    e.kind == Purchase || (e.kind == RemoveFromCart && e.product == product)
  }

  ghost predicate StandsFor(events: seq<Event>, i: nat, product: string) {
    ItemStands(events, i) && events[i].product == product
  }

  lemma StandsStep(events: seq<Event>, i: nat)
    requires i < |events| - 1
    ensures var (init, e) := (events[..|events| - 1], events[|events| - 1]);
      ItemStands(events, i) <==> ItemStands(init, i) && !Clears(e, events[i].product)
  {
    hide Clears;
    var (init, e) := (events[..|events| - 1], events[|events| - 1]);
    if GoneAfter(init, i) {
      var k :| i < k < |init| && Clears(init[k], init[i].product);
      assert Clears(events[k], events[i].product);
    }
    if GoneAfter(events, i) && !Clears(e, events[i].product) {
      var k :| i < k < |events| && Clears(events[k], events[i].product);
      assert Clears(init[k], init[i].product);
    }
  }

  lemma {:induction false} PriceIff(events: seq<Event>, product: string)
    ensures CartPrice(events, product).Some? <==> exists i: nat :: StandsFor(events, i, product)
  {
    if events != [] {
      var n := |events| - 1;
      var (init, e) := (events[..n], events[n]);
      PriceIff(init, product);
      forall i: nat | i < n
        ensures StandsFor(events, i, product) <==> StandsFor(init, i, product) && !Clears(e, product)
      {
        StandsStep(events, i);
      }
      assert StandsFor(events, n, product) <==> e.kind == Cart && e.product == product != "" && e.price.Some?;
      if CartPrice(init, product).Some? && !Clears(e, product) {
        var i: nat :| StandsFor(init, i, product);
        assert StandsFor(events, i, product);
      }
      if i: nat :| StandsFor(events, i, product) {
        assert i == n || StandsFor(init, i, product);
      }
    }
  }

  /** Something is in the cart exactly when some priced add has been neither bought nor removed. */
  lemma CartHoldsIff(id: string, events: seq<Event>)
    ensures Fold(id, events).cart != map[] <==> exists i: nat :: ItemStands(events, i)
  {
    hide Fold, CartPrice, ItemStands;
    var cart := Fold(id, events).cart;
    if cart != map[] {
      var product :| product in cart;
      FoldCart(id, events, product);
      PriceIff(events, product);
      var i: nat :| StandsFor(events, i, product);
      assert ItemStands(events, i);
    }
    if i: nat :| ItemStands(events, i) {
      InRange(events, i);
      var product := events[i].product;
      assert StandsFor(events, i, product);
      PriceIff(events, product);
      FoldCart(id, events, product);
    }
  }

  lemma InRange(events: seq<Event>, i: nat)
    requires ItemStands(events, i)
    ensures i < |events|
  {
  }

  /** The flag and the contents agree exactly when an add without a later purchase means an item still there. */
  lemma OpenCartHoldsSomethingIff(id: string, events: seq<Event>)
    ensures var s := Fold(id, events);
      (s.HasOpenCart() <==> s.cart != map[]) <==>
        ((exists i: nat :: AddStands(events, i)) ==> exists i: nat :: ItemStands(events, i))
  {
    hide Fold, ItemStands, AddStands;
    OpenCartIff(id, events);
    CartHoldsIff(id, events);
    forall i: nat | ItemStands(events, i)
      ensures AddStands(events, i)
    {
      ItemIsAdd(events, i);
    }
  }

  lemma ItemIsAdd(events: seq<Event>, i: nat)
    requires ItemStands(events, i)
    ensures AddStands(events, i)
  {
    forall k | i < k < |events|
      ensures events[k].kind != Purchase
    {
      assert !Clears(events[k], events[i].product);
    }
  }

  /** An add and the removal of what was added: the cart is open, and empty. */
  lemma EmptyCartStaysOpen(id: string, add: Event, remove: Event)
    requires add.kind == Cart && remove.kind == RemoveFromCart && add.product == remove.product != ""
    ensures var s := Fold(id, [add, remove]); s.HasOpenCart() && s.cart == map[]
  {
    var events := [add, remove];
    OpenCartIff(id, events);
    assert AddStands(events, 0);
    CartHoldsIff(id, events);
    assert Clears(events[1], events[0].product);
    assert !ItemStands(events, 0) && !ItemStands(events, 1);
  }

  // ---- every other figure, read off the events -------------------------

  /** The events' kinds, without their order. */
  function Kinds(events: seq<Event>): multiset<EventType> {
    multiset(seq(|events|, i requires 0 <= i < |events| => events[i].kind))
  }

  /** The prices the events carry, in order. */
  function PricesIn(events: seq<Event>): seq<real> {
    if events == [] then []
    else
      var e := events[|events| - 1];
      PricesIn(events[..|events| - 1]) + if e.price.Some? then [e.price.value] else []
  }

  function Total(prices: seq<real>): real {
    if prices == [] then 0.0 else Total(prices[..|prices| - 1]) + prices[|prices| - 1]
  }

  /** The greatest of zero and `prices`. */
  ghost predicate IsTop(top: real, prices: seq<real>) {
    && top >= 0.0 && (top == 0.0 || top in prices)
    && forall i :: 0 <= i < |prices| ==> prices[i] <= top
  }

  /** The greatest of zero and the times between neighbouring events. */
  ghost predicate IsLongest(top: int, events: seq<Event>) {
    && top >= 0 && (top == 0 || exists i :: Neighbours(events, i) && events[i].ts - events[i - 1].ts == top)
    && forall i :: Neighbours(events, i) ==> events[i].ts - events[i - 1].ts <= top
  }

  predicate Neighbours(events: seq<Event>, i: int) { 1 <= i < |events| }

  predicate SameTallies(s: Session, t: Session) {
    && s.views == t.views && s.clicks == t.clicks && s.searches == t.searches
    && s.cartAdds == t.cartAdds && s.cartRemoves == t.cartRemoves && s.purchases == t.purchases
  }

  predicate SameSeen(s: Session, t: Session) {
    s.products == t.products && s.categories == t.categories && s.brands == t.brands
  }

  lemma PartsKeep(s: Session, e: Event)
    ensures SameTallies(s, Timed(s, e)) && SameSeen(s, Timed(s, e)) && s.prices == Timed(s, e).prices
    ensures SameSeen(s, Counted(s, e)) && s.prices == Counted(s, e).prices
    ensures SameTallies(s, Tagged(s, e)) && s.prices == Tagged(s, e).prices && s.products == Tagged(s, e).products
    ensures SameTallies(s, Priced(s, e)) && SameSeen(s, Priced(s, e))
  {
  }

  lemma CartedKeeps(s: Session, e: Event)
    ensures var t := Carted(s, e);
      && SameTallies(s, t) && s.prices == t.prices && s.categories == t.categories && s.brands == t.brands
      && t.products == s.products + if e.product == "" then {} else {e.product}
  {
  }

  lemma CountedTallies(s: Session, e: Event)
    ensures var t := Counted(s, e);
      && t.views == s.views + (if e.kind == ViewEvent then 1 else 0)
      && t.clicks == s.clicks + (if e.kind == Click then 1 else 0)
      && t.searches == s.searches + (if e.kind == Search then 1 else 0)
      && t.cartAdds == s.cartAdds + (if e.kind == Cart then 1 else 0)
      && t.cartRemoves == s.cartRemoves + (if e.kind == RemoveFromCart then 1 else 0)
      && t.purchases == s.purchases + (if e.kind == Purchase then 1 else 0)
  {
  }

  lemma StepTallies(s: Session, e: Event)
    ensures var t := Step(s, e);
      && t.views == s.views + (if e.kind == ViewEvent then 1 else 0)
      && t.clicks == s.clicks + (if e.kind == Click then 1 else 0)
      && t.searches == s.searches + (if e.kind == Search then 1 else 0)
      && t.cartAdds == s.cartAdds + (if e.kind == Cart then 1 else 0)
      && t.cartRemoves == s.cartRemoves + (if e.kind == RemoveFromCart then 1 else 0)
      && t.purchases == s.purchases + (if e.kind == Purchase then 1 else 0)
  {
    hide Timed, Counted, Carted, Tagged, Priced;
    var (a, b) := (Timed(s, e), Counted(Timed(s, e), e));
    PartsKeep(s, e);
    CountedTallies(a, e);
    CartedKeeps(b, e);
    PartsKeep(Carted(b, e), e);
    PartsKeep(Tagged(Carted(b, e), e), e);
  }

  lemma StepSeen(s: Session, e: Event)
    ensures var t := Step(s, e);
      && t.products == s.products + (if e.product == "" then {} else {e.product})
      && t.categories == s.categories + (if e.category == "" then {} else {e.category})
      && t.brands == s.brands + (if e.brand == "" then {} else {e.brand})
  {
    hide Timed, Counted, Carted, Priced;
    var (a, b) := (Timed(s, e), Counted(Timed(s, e), e));
    PartsKeep(s, e);
    PartsKeep(a, e);
    CartedKeeps(b, e);
    PartsKeep(Carted(b, e), e);
    PartsKeep(Tagged(Carted(b, e), e), e);
  }

  lemma StepPrices(s: Session, e: Event)
    ensures var t := Step(s, e);
      && (e.price.None? ==> t.prices == s.prices)
      && (e.price.Some? ==> t.prices.sum == s.prices.sum + e.price.value && t.prices.count == s.prices.count + 1
                            && t.prices.max == if e.price.value > s.prices.max then e.price.value else s.prices.max)
  {
    hide Timed, Counted, Carted, Tagged;
    var (a, b) := (Timed(s, e), Counted(Timed(s, e), e));
    PartsKeep(s, e);
    PartsKeep(a, e);
    CartedKeeps(b, e);
    PartsKeep(Carted(b, e), e);
  }

  /** Each counter counts the events of its kind. */
  lemma {:induction false} FoldKinds(id: string, events: seq<Event>)
    ensures var (s, kinds) := (Fold(id, events), Kinds(events));
      && s.views == kinds[ViewEvent] && s.clicks == kinds[Click] && s.searches == kinds[Search]
      && s.cartAdds == kinds[Cart] && s.cartRemoves == kinds[RemoveFromCart] && s.purchases == kinds[Purchase]
  {
    hide Step;
    if events != [] {
      var n := |events| - 1;
      FoldKinds(id, events[..n]);
      StepTallies(Fold(id, events[..n]), events[n]);
      KindsSnoc(events);
    }
  }

  lemma KindsSnoc(events: seq<Event>)
    requires events != []
    ensures Kinds(events) == Kinds(events[..|events| - 1]) + multiset{events[|events| - 1].kind}
  {
    var n := |events| - 1;
    var (few, all) := (seq(n, i requires 0 <= i < n => events[..n][i].kind),
                       seq(|events|, i requires 0 <= i < |events| => events[i].kind));
    assert all == few + [events[n].kind];
  }

  /** Products, categories and brands are exactly the nonempty ones seen; the device is the first event's. */
  lemma {:induction false} FoldSeen(id: string, events: seq<Event>)
    ensures var s := Fold(id, events);
      && s.products == SeenIn(events, (e: Event) => e.product)
      && s.categories == SeenIn(events, (e: Event) => e.category)
      && s.brands == SeenIn(events, (e: Event) => e.brand)
      && (events != [] ==> s.device == events[0].device)
  {
    hide Step, SeenIn;
    if events == [] {
      NoneIn(events, (e: Event) => e.product);
      NoneIn(events, (e: Event) => e.category);
      NoneIn(events, (e: Event) => e.brand);
    } else {
      var n := |events| - 1;
      FoldSeen(id, events[..n]);
      FoldCounts(id, events[..n]);
      StepSeen(Fold(id, events[..n]), events[n]);
      StepTimes(Fold(id, events[..n]), events[n]);
      SeenSnoc(events, (e: Event) => e.product);
      SeenSnoc(events, (e: Event) => e.category);
      SeenSnoc(events, (e: Event) => e.brand);
    }
  }

  /** The nonempty values of a field. */
  function SeenIn(events: seq<Event>, field: Event -> string): set<string> {
    set i | 0 <= i < |events| && field(events[i]) != "" :: field(events[i])
  }

  lemma NoneIn(events: seq<Event>, field: Event -> string)
    requires events == []
    ensures SeenIn(events, field) == {}
  {
  }

  lemma SeenSnoc(events: seq<Event>, field: Event -> string)
    requires events != []
    ensures var (init, e) := (events[..|events| - 1], events[|events| - 1]);
      SeenIn(events, field) == SeenIn(init, field) + if field(e) == "" then {} else {field(e)}
  {
    var (init, e) := (events[..|events| - 1], events[|events| - 1]);
    forall x | x in SeenIn(init, field)
      ensures x in SeenIn(events, field)
    {
      var i :| 0 <= i < |init| && field(init[i]) != "" && field(init[i]) == x;
      assert field(events[i]) == x;
    }
    forall x | x in SeenIn(events, field)
      ensures x in SeenIn(init, field) + if field(e) == "" then {} else {field(e)}
    {
      var i :| 0 <= i < |events| && field(events[i]) != "" && field(events[i]) == x;
      if i < |init| {
        assert field(init[i]) == x;
      }
    }
  }

  /** Price figures are those of the prices seen, and the longest gap is that between neighbouring events. */
  lemma {:induction false} FoldFigures(id: string, events: seq<Event>)
    ensures var (s, prices) := (Fold(id, events), PricesIn(events));
      && s.prices.sum == Total(prices) && s.prices.count == |prices| && IsTop(s.prices.max, prices)
      && IsLongest(s.gaps.max, events)
  {
    hide Step, IsTop, IsLongest;
    if events == [] {
      NothingSeen(events);
    } else {
      var n := |events| - 1;
      var (s, e) := (Fold(id, events[..n]), events[n]);
      FoldFigures(id, events[..n]);
      FoldCounts(id, events[..n]);
      StepPrices(s, e);
      StepTimes(s, e);
      TopSnoc(s.prices.max, PricesIn(events[..n]), e.price);
      LongestSnoc(s.gaps.max, events);
      var before := PricesIn(events[..n]);
      if e.price.Some? {
        assert PricesIn(events) == before + [e.price.value];
        assert PricesIn(events)[..|before|] == before;
      } else {
        assert PricesIn(events) == before;
      }
    }
  }

  lemma NothingSeen(events: seq<Event>)
    requires events == []
    ensures IsTop(0.0, PricesIn(events)) && IsLongest(0, events)
  {
  }

  lemma TopSnoc(top: real, prices: seq<real>, next: Option<real>)
    requires IsTop(top, prices)
    ensures next.Some? ==> IsTop(if next.value > top then next.value else top, prices + [next.value])
  {
  }

  lemma LongestSnoc(top: int, events: seq<Event>)
    requires events != [] && IsLongest(top, events[..|events| - 1])
    ensures var n := |events| - 1;
      IsLongest(if n == 0 then top else Max(top, Max(0, events[n].ts - events[n - 1].ts)), events)
  {
    var n := |events| - 1;
    var init := events[..n];
    assert forall i :: Neighbours(init, i) <==> Neighbours(events, i) && i < n;
    if top > 0 {
      var i :| Neighbours(init, i) && init[i].ts - init[i - 1].ts == top;
      assert Neighbours(events, i) && events[i].ts - events[i - 1].ts == top;
    }
    if n > 0 {
      assert Neighbours(events, n);
    }
  }
}
