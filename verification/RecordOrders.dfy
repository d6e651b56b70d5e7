/** How the Python `Cassette` numbers what it records, over runs of its claims and records. */
module RecordOrders {
  import opened Matching
  import opened NormalizedMirror
  import opened Options
  import opened Ordering
  import opened Protocol
  import opened ReservationOrder
  import opened Sorting

  /** The recorded interactions, the order each was claimed under, and the next order to hand out. */
  datatype Book = Book(items: seq<HttpInteraction>, orders: seq<nat>, next: nat)

  function LoadedBook(http: seq<HttpInteraction>): Book {
    Book(http, Iota(|http|), |http|)
  }

  function Claim(book: Book): (nat, Book) {
    (book.next, book.(next := book.next + 1))
  }

  /** An interaction that claimed no order takes the next one. */
  function Entered(book: Book, item: HttpInteraction, claimed: Option<nat>): Book {
    var (order, after) := if claimed.Some? then (claimed.value, book) else Claim(book);
    after.(items := book.items + [item], orders := book.orders + [order])
  }

  // --- Runs ---

  datatype Event = ClaimOrder | RecordClaimed(order: nat, item: HttpInteraction) | RecordUnclaimed(item: HttpInteraction)

  /** `claims` holds the orders claimed and not yet used. */
  datatype Run = Run(book: Book, claims: set<nat>)

  /** Each claimed order is used at most once. */
  predicate Enabled(run: Run, ev: Event) {
    ev.RecordClaimed? ==> ev.order in run.claims
  }

  function Step(run: Run, ev: Event): Run {
    match ev
    case ClaimOrder => var (order, book) := Claim(run.book); Run(book, run.claims + {order})
    case RecordClaimed(order, item) => Run(Entered(run.book, item, Some(order)), run.claims - {order})
    case RecordUnclaimed(item) => run.(book := Entered(run.book, item, None))
  }

  function RunAll(run: Run, events: seq<Event>): Option<Run>
    decreases |events|
  {
    if events == [] then Some(run)
    else if Enabled(run, events[0]) then RunAll(Step(run, events[0]), events[1..])
    else None
  }

  /** A run can go on with any claim and any record, under an order only while it is claimed and not used. */
  lemma {:induction false} RunGoesOn(run: Run, events: seq<Event>, ev: Event)
    requires RunAll(run, events).Some?
    ensures RunAll(run, events + [ev]) ==
            if ev.RecordClaimed? && ev.order !in RunAll(run, events).value.claims then None
            else Some(Step(RunAll(run, events).value, ev))
    decreases |events|
  {
    var more := events + [ev];
    assert more[0] == if events == [] then ev else events[0];
    if events == [] {
      assert more[1..] == [];
    } else {
      assert more[1..] == events[1..] + [ev];
      RunGoesOn(Step(run, events[0]), events[1..], ev);
    }
  }

  /** Orders are handed out once: no recording shares one, and none that is still claimed was used. */
  ghost predicate Numbered(run: Run) {
    && |run.book.items| == |run.book.orders| && Distinct(run.book.orders)
    && (forall o | o in run.book.orders :: o < run.book.next && o !in run.claims)
    && (forall o | o in run.claims :: o < run.book.next)
  }

  lemma StepNumbered(run: Run, ev: Event)
    requires Numbered(run) && Enabled(run, ev)
    ensures Numbered(Step(run, ev))
  {
    match ev
    case ClaimOrder =>
    case RecordClaimed(order, _) => AppendDistinct(run.book.orders, order);
    case RecordUnclaimed(_) => AppendDistinct(run.book.orders, run.book.next);
  }

  lemma AppendDistinct(orders: seq<nat>, order: nat)
    requires Distinct(orders) && order !in orders
    ensures Distinct(orders + [order])
  {}

  lemma {:induction false} RunNumbered(run: Run, events: seq<Event>)
    requires Numbered(run) && RunAll(run, events).Some?
    ensures Numbered(RunAll(run, events).value)
    decreases |events|
  {
    if events != [] {
      StepNumbered(run, events[0]);
      RunNumbered(Step(run, events[0]), events[1..]);
    }
  }

  /** A run from a loaded file. */
  ghost predicate Reaches(http: seq<HttpInteraction>, events: seq<Event>, book: Book) {
    var end := RunAll(Run(LoadedBook(http), {}), events);
    end.Some? && end.value.book == book
  }

  lemma ReachedNumbered(http: seq<HttpInteraction>, events: seq<Event>, book: Book)
    requires Reaches(http, events, book)
    ensures |book.items| == |book.orders| && Distinct(book.orders) && forall o | o in book.orders :: o < book.next
  {
    RunNumbered(Run(LoadedBook(http), {}), events);
  }

  lemma EnteredPairs(book: Book, item: HttpInteraction, claimed: Option<nat>)
    requires |book.items| == |book.orders|
    ensures var after := Entered(book, item, claimed);
            && Pairs(after.items, after.orders, item, if claimed.Some? then claimed.value else book.next)
            && forall x, o :: Pairs(book.items, book.orders, x, o) ==> Pairs(after.items, after.orders, x, o)
  {
    var after := Entered(book, item, claimed);
    assert after.items[|book.items|] == item && after.orders[|book.items|] == if claimed.Some? then claimed.value else book.next;
    forall x, o | Pairs(book.items, book.orders, x, o) ensures Pairs(after.items, after.orders, x, o) {
      var i: nat :| i < |book.orders| && i < |book.items| && book.orders[i] == o && book.items[i] == x;
      assert after.orders[i] == o && after.items[i] == x;
    }
  }

  lemma {:induction false} PairsStay(run: Run, events: seq<Event>, item: HttpInteraction, order: nat)
    requires Numbered(run) && RunAll(run, events).Some? && Pairs(run.book.items, run.book.orders, item, order)
    ensures Pairs(RunAll(run, events).value.book.items, RunAll(run, events).value.book.orders, item, order)
    decreases |events|
  {
    if events != [] {
      var next := Step(run, events[0]);
      StepNumbered(run, events[0]);
      if !events[0].ClaimOrder? {
        EnteredPairs(run.book, events[0].item, if events[0].RecordClaimed? then Some(events[0].order) else None);
      }
      PairsStay(next, events[1..], item, order);
    }
  }

  lemma {:induction false} RecordedUnder(run: Run, events: seq<Event>, k: nat) returns (order: nat)
    requires Numbered(run) && RunAll(run, events).Some? && k < |events| && !events[k].ClaimOrder?
    ensures events[k].RecordClaimed? ==> order == events[k].order
    ensures Pairs(RunAll(run, events).value.book.items, RunAll(run, events).value.book.orders, events[k].item, order)
    decreases |events|
  {
    StepNumbered(run, events[0]);
    var next := Step(run, events[0]);
    if k > 0 {
      order := RecordedUnder(next, events[1..], k - 1);
    } else {
      var claimed := if events[0].RecordClaimed? then Some(events[0].order) else None;
      order := if claimed.Some? then claimed.value else run.book.next;
      EnteredPairs(run.book, events[0].item, claimed);
      PairsStay(next, events[1..], events[0].item, order);
    }
  }

  predicate HandsOut(ev: Event) { !ev.RecordClaimed? }

  lemma {:induction false} NextCounts(run: Run, events: seq<Event>)
    requires RunAll(run, events).Some?
    ensures RunAll(run, events).value.book.next == run.book.next + |Filter(events, HandsOut)|
    decreases |events|
  {
    if events != [] {
      NextCounts(Step(run, events[0]), events[1..]);
    }
  }

  lemma LoadedPairs(http: seq<HttpInteraction>, k: nat)
    requires k < |http|
    ensures Pairs(http, Iota(|http|), http[k], k)
  {
    assert Iota(|http|)[k] == k;
  }

  /** In every run what was loaded keeps its place as its order, every interaction recorded since stands under the order
      that was claimed for it, if one was, and orders are handed out one after another. */
  lemma RecordedStands(http: seq<HttpInteraction>, events: seq<Event>, book: Book)
    requires Reaches(http, events, book)
    ensures forall k: nat :: k < |http| ==> Pairs(book.items, book.orders, http[k], k)
    ensures forall k: nat :: k < |events| && !events[k].ClaimOrder? ==>
              exists order :: (events[k].RecordClaimed? ==> order == events[k].order) &&
                              Pairs(book.items, book.orders, events[k].item, order)
    ensures book.next == |http| + |Filter(events, HandsOut)|
  {
    var start := Run(LoadedBook(http), {});
    NextCounts(start, events);
    forall k: nat | k < |http| ensures Pairs(book.items, book.orders, http[k], k) {
      LoadedPairs(http, k);
      PairsStay(start, events, http[k], k);
    }
    forall k: nat | k < |events| && !events[k].ClaimOrder?
      ensures exists order :: (events[k].RecordClaimed? ==> order == events[k].order) &&
                              Pairs(book.items, book.orders, events[k].item, order)
    {
      var order := RecordedUnder(start, events, k);
    }
  }

  /** Two runs that entered the same interactions under the same orders are saved alike, in whatever order their responses
      came back. */
  lemma RunsSaveAlike(
      n: Normalizer, http: seq<HttpInteraction>, events: seq<Event>, book: Book, events': seq<Event>, book': Book,
      config: MatchConfig)
    requires Reaches(http, events, book) && Reaches(http, events', book')
    requires |book.items| == |book.orders| && |book'.items| == |book'.orders|
    requires forall s :: s in Slots(book.orders, book.items) <==> s in Slots(book'.orders, book'.items)
    ensures Saved(n, book.items, book.orders, config) == Saved(n, book'.items, book'.orders, config)
  {
    ReachedNumbered(http, events, book);
    ReachedNumbered(http, events', book');
    SavedIgnoresArrival(n, book.items, book.orders, book'.items, book'.orders, config);
  }
}
