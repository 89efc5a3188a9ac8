/**
 * The ticket issuer, `POST /api/generate-number`: validates the amount paid,
 * turns it into a number of tickets at 3000 per ticket, and mints each ticket
 * by drawing random five-digit candidates until one is not yet stored, which
 * it then saves.
 */
module GenerateNumber {
  import opened Wrappers
  import opened JsValues
  import opened NumberModel

  /** Price of one ticket. */
  const UnitPrice := 3000

  datatype IssueError = InvalidAmount | InsufficientAmount

  function Message(e: IssueError): string {
    match e
    case InvalidAmount => "El monto debe ser un número positivo."
    case InsufficientAmount => "El monto no es suficiente para generar un número."
  }

  /**
   * What the handler answers: 201 with the minted numbers, or 400 with an
   * error. `OutOfDraws` is the model's own outcome for a run that would need
   * more calls of `Math.random()` than the bound it was given (see `Post`).
   */
  datatype Response =
    | Created(numbers: seq<int>)
    | BadRequest(error: IssueError)
    | OutOfDraws(minted: seq<int>)

  /**
   * The amount check and `Math.floor(monto / 3000)`: the number of tickets
   * an amount buys, or why the request is refused.
   */
  function TicketCount(monto: Value): (r: Result<nat, IssueError>)
    ensures r == Err(InvalidAmount) <==> !monto.Number? || monto.x <= 0.0
    ensures r == Err(InsufficientAmount) <==> monto.Number? && 0.0 < monto.x < UnitPrice as real
    ensures r.Ok? ==> r.value >= 1
    ensures r.Ok? ==> (r.value * UnitPrice) as real <= monto.x < ((r.value + 1) * UnitPrice) as real
  {
    if !IsNumber(monto) || monto.x <= 0.0 then Err(InvalidAmount)
    else
      var count := (monto.x / UnitPrice as real).Floor;
      if count == 0 then Err(InsufficientAmount) else Ok(count)
  }

  /** `Math.floor(10000 + Math.random() * 90000)`: a random five-digit candidate. */
  function Candidate(r: UnitReal): (v: int)
    ensures InRange(v)
  {
    var x := 10000.0 + r * 90000.0;
    assert 10000.0 <= x < 100000.0 by {
      assert 0.0 <= r * 90000.0 < 90000.0;
    }
    x.Floor
  }

  /** Every five-digit value can be drawn as a candidate. */
  lemma CandidateCovers(v: int)
    requires InRange(v)
    ensures Candidate((v - 10000) as real / 90000.0) == v
  {
    var r: UnitReal := (v - 10000) as real / 90000.0;
    assert r * 90000.0 == (v - 10000) as real;
  }

  /** The outcome of one ticket's retry loop. */
  datatype Attempt =
    | Fresh(value: int, next: nat)  // the first candidate not yet stored, and the count of draws made
    | Exhausted                     // the draws ran out first

  /**
   * The retry loop of one ticket, given the values already `stored` and that
   * the next `Math.random()` call is the k-th (`maxDraws` bounds the calls):
   * candidates are drawn until one is not stored.
   */
  function FirstFresh(stored: seq<int>, random: Random, k: nat, maxDraws: nat): (a: Attempt)
    ensures a.Fresh? ==> InRange(a.value) && a.value !in stored && k < a.next <= maxDraws
    decreases maxDraws - k
  {
    if k >= maxDraws then Exhausted
    else
      var v := Candidate(random(k));
      if v in stored then FirstFresh(stored, random, k + 1, maxDraws) else Fresh(v, k + 1)
  }

  /**
   * The ticket is the first fresh candidate: it is the last draw made, and
   * every earlier draw hit a stored value. The draws run out only when every
   * remaining draw hits a stored value.
   */
  lemma {:induction false} FirstFreshIsFirst(stored: seq<int>, random: Random, k: nat, maxDraws: nat)
    ensures var a := FirstFresh(stored, random, k, maxDraws);
            && (a.Fresh? ==> a.value == Candidate(random(a.next - 1)))
            && (a.Fresh? ==> forall m :: k <= m < a.next - 1 ==> Candidate(random(m)) in stored)
            && (a.Exhausted? ==> forall m :: k <= m < maxDraws ==> Candidate(random(m)) in stored)
    decreases maxDraws - k
  {
    if k < maxDraws && Candidate(random(k)) in stored {
      FirstFreshIsFirst(stored, random, k + 1, maxDraws);
    }
  }

  /**
   * The numbers the issuance loops mint for `count` more tickets, given the
   * values already `stored` and the draws made so far: each ticket is the
   * first fresh candidate, saved before the next ticket is drawn.
   */
  function Mint(stored: seq<int>, count: nat, random: Random, k: nat, maxDraws: nat): (minted: seq<int>)
    decreases count
  {
    if count == 0 then []
    else
      match FirstFresh(stored, random, k, maxDraws)
      case Exhausted => []
      case Fresh(v, next) => [v] + Mint(stored + [v], count - 1, random, next, maxDraws)
  }

  /** Tickets that are five-digit values, pairwise distinct and none of them already `stored`. */
  predicate FreshTickets(minted: seq<int>, stored: seq<int>) {
    && (forall i :: 0 <= i < |minted| ==> InRange(minted[i]) && minted[i] !in stored)
    && Distinct(minted)
  }

  /**
   * What the issuance loops promise: at most `count` tickets, each a
   * five-digit value that was not stored before, no value twice, and no more
   * tickets than there were draws left.
   */
  lemma {:induction false} MintFresh(stored: seq<int>, count: nat, random: Random, k: nat, maxDraws: nat)
    ensures var minted := Mint(stored, count, random, k, maxDraws);
            && |minted| <= count
            && (k <= maxDraws ==> |minted| <= maxDraws - k)
            && FreshTickets(minted, stored)
    decreases count
  {
    if count > 0 && FirstFresh(stored, random, k, maxDraws).Fresh? {
      var Fresh(v, next) := FirstFresh(stored, random, k, maxDraws);
      MintFresh(stored + [v], count - 1, random, next, maxDraws);
      var rest := Mint(stored + [v], count - 1, random, next, maxDraws);
      assert forall i :: 0 <= i < |rest| ==> rest[i] != v && rest[i] !in stored;
    }
  }

  /** Fresh tickets added to a collection within the schema keep it within the schema. */
  lemma FreshTicketsStored(stored: seq<int>, minted: seq<int>)
    requires SchemaHolds(stored) && FreshTickets(minted, stored)
    ensures SchemaHolds(stored + minted)
  {
    var all := stored + minted;
    forall i, j | 0 <= i < j < |all| ensures all[i] != all[j] {
      if j >= |stored| && i < |stored| {
        assert all[j] == minted[j - |stored|];
      } else if i >= |stored| {
        assert all[i] == minted[i - |stored|] && all[j] == minted[j - |stored|];
      }
    }
  }

  /**
   * A request for more tickets than the collection has room for never
   * completes: however many draws it is given, it mints fewer than `count`.
   * The source's retry loop then runs forever.
   */
  lemma NoRoomNeverCompletes(stored: seq<int>, count: nat, random: Random, maxDraws: nat)
    requires SchemaHolds(stored) && |stored| + count > Capacity
    ensures |Mint(stored, count, random, 0, maxDraws)| < count
  {
    var minted := Mint(stored, count, random, 0, maxDraws);
    MintFresh(stored, count, random, 0, maxDraws);
    FreshTicketsStored(stored, minted);
    CapacityBound(stored + minted);
  }

  /** Once every value is taken, no draw finds a fresh candidate. */
  lemma FullCollectionExhausts(stored: seq<int>, random: Random, k: nat, maxDraws: nat)
    requires SchemaHolds(stored) && |stored| == Capacity
    ensures FirstFresh(stored, random, k, maxDraws) == Exhausted
  {
    var a := FirstFresh(stored, random, k, maxDraws);
    if a.Fresh? {
      FullCollection(stored, a.value);
    }
  }

  /** One more ticket, or none when its retry loop runs out of draws. */
  lemma MintNext(stored: seq<int>, count: nat, random: Random, k: nat, maxDraws: nat, ticket: Option<int>, next: nat)
    requires count > 0
    requires FirstFresh(stored, random, k, maxDraws) == if ticket.Some? then Fresh(ticket.value, next) else Exhausted
    ensures Mint(stored, count, random, k, maxDraws)
            == if ticket.Some? then [ticket.value] + Mint(stored + [ticket.value], count - 1, random, next, maxDraws) else []
  {
  }

  /**
   * One pass of the outer loop: the `while (!numeroUnico)` retry loop. Draws
   * candidates from the k-th call of `Math.random()` on until one is not
   * stored, saves it and returns it with the number of calls made so far;
   * returns `None` when the draws run out first.
   */
  method MintTicket(store: NumberStore, random: Random, k: nat, maxDraws: nat)
    returns (ticket: Option<int>, next: nat)
    requires store.Valid() && k <= maxDraws
    modifies store
    ensures store.Valid() && next <= maxDraws
    ensures FirstFresh(old(store.values), random, k, maxDraws)
            == if ticket.Some? then Fresh(ticket.value, next) else Exhausted
    ensures store.values == old(store.values) + if ticket.Some? then [ticket.value] else []
  {
    next := k;
    ticket := None;
    var unique := false;
    while !unique
      invariant store.Valid() && k <= next <= maxDraws
      invariant !unique ==> ticket.None? && store.values == old(store.values)
      invariant !unique ==> FirstFresh(store.values, random, k, maxDraws) == FirstFresh(store.values, random, next, maxDraws)
      invariant unique ==> ticket.Some? && store.values == old(store.values) + [ticket.value]
      invariant unique ==> FirstFresh(old(store.values), random, k, maxDraws) == Fresh(ticket.value, next)
      decreases maxDraws - next, if unique then 0 else 1
    {
      if next == maxDraws {
        return None, next;
      }
      var candidate := Candidate(random(next));
      next := next + 1;
      var existing := store.FindOne(candidate);
      if !existing {
        var error := store.Save(Some(candidate));
        assert error.None?;
        ticket := Some(candidate);
        unique := true;
      }
    }
  }

  /**
   * The outer `for` loop: mints `count` tickets one after the other, stopping
   * early only when the draws run out. Returns the tickets in mint order.
   */
  method MintTickets(store: NumberStore, count: nat, random: Random, maxDraws: nat) returns (generated: seq<int>)
    requires store.Valid()
    modifies store
    ensures store.Valid()
    ensures generated == Mint(old(store.values), count, random, 0, maxDraws)
    ensures store.values == old(store.values) + generated
  {
    ghost var target := Mint(store.values, count, random, 0, maxDraws);
    generated := [];
    var k: nat := 0;  // calls of Math.random() so far
    for i := 0 to count
      invariant store.Valid()
      invariant |generated| == i && k <= maxDraws
      invariant store.values == old(store.values) + generated
      invariant generated + Mint(store.values, count - i, random, k, maxDraws) == target
    {
      ghost var before, k0 := store.values, k;
      var ticket;
      ticket, k := MintTicket(store, random, k, maxDraws);
      MintNext(before, count - i, random, k0, maxDraws, ticket, k);
      if ticket.None? {
        assert generated + [] == generated;
        return;
      }
      ghost var rest := Mint(store.values, count - i - 1, random, k, maxDraws);
      assert (generated + [ticket.value]) + rest == generated + ([ticket.value] + rest);
      assert store.values == old(store.values) + (generated + [ticket.value]);
      generated := generated + [ticket.value];
    }
    assert Mint(store.values, 0, random, k, maxDraws) == [];
    assert generated + [] == generated;
  }

  /**
   * The handler. `maxDraws` bounds the number of `Math.random()` calls: the
   * source's retry loop has no bound, and a run that needs more draws stops
   * with `OutOfDraws`, holding the tickets minted (and saved) so far.
   */
  method Post(store: NumberStore, monto: Value, random: Random, maxDraws: nat) returns (response: Response)
    requires store.Valid()
    modifies store
    ensures store.Valid()
    ensures TicketCount(monto).Err? ==>
              response == BadRequest(TicketCount(monto).error) && store.values == old(store.values)
    ensures TicketCount(monto).Ok? ==>
              var minted := Mint(old(store.values), TicketCount(monto).value, random, 0, maxDraws);
              && store.values == old(store.values) + minted
              && response == if |minted| == TicketCount(monto).value then Created(minted) else OutOfDraws(minted)
    ensures response.Created? ==>
              && TicketCount(monto) == Ok(|response.numbers|)
              && FreshTickets(response.numbers, old(store.values))
              && |old(store.values)| + |response.numbers| <= Capacity
  {
    var validated := TicketCount(monto);
    if validated.Err? {
      return BadRequest(validated.error);
    }
    var count := validated.value;
    var generated := MintTickets(store, count, random, maxDraws);
    MintFresh(old(store.values), count, random, 0, maxDraws);
    CapacityBound(store.values);
    if |generated| == count {
      response := Created(generated);
    } else {
      response := OutOfDraws(generated);
    }
  }
}
