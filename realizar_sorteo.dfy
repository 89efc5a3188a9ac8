/**
 * The draw engine, `POST /api/realizar-sorteo`: validates the number of
 * winners, reads every stored ticket, shuffles them in place with the
 * Fisher–Yates algorithm and answers with the first `cantidadGanadores`.
 * The handler reads only `cantidadGanadores` from the body; the pinned
 * placements the page sends along are ignored.
 */
module RealizarSorteo {
  import opened Wrappers
  import opened JsValues
  import opened JsText
  import opened NumberModel

  /** The JSON body the page sends. */
  datatype DrawBody = DrawBody(cantidadGanadores: Value, primerPuestoManual: Value, segundoPuestoManual: Value)

  datatype DrawError =
    | InvalidCount
    | NotEnoughParticipants(needed: nat, available: nat)

  function Message(e: DrawError): string {
    match e
    case InvalidCount => "La cantidad de ganadores debe ser un número entero positivo."
    case NotEnoughParticipants(needed, available) =>
      "No hay suficientes participantes. Se necesitan " + IntToDecimal(needed)
      + " ganadores pero solo hay " + IntToDecimal(available) + " números registrados."
  }

  /** The check on `cantidadGanadores`: a number, an integer, and positive. */
  function ValidateCount(v: Value): (r: Result<nat, DrawError>)
    ensures r.Ok? <==> v.Number? && v.x.Floor as real == v.x && v.x >= 1.0
    ensures r.Ok? ==> r.value >= 1 && r.value as real == v.x
    ensures r.Err? ==> r.error == InvalidCount
  {
    if !IsNumber(v) || !IsInteger(v) || v.x <= 0.0 then Err(InvalidCount)
    else Ok(v.x.Floor)
  }

  /** `r * n`, spelled out as n additions of r. */
  function Times(r: UnitReal, n: nat): (x: real)
    ensures 0.0 <= x && (n > 0 ==> x < n as real)
    ensures x == r * n as real
  {
    if n == 0 then 0.0 else Times(r, n - 1) + r
  }

  /** `Math.floor(Math.random() * (i + 1))`: the position swapped with position i. */
  function SwapIndex(r: UnitReal, i: nat): (j: nat)
    ensures j <= i
  {
    Times(r, i + 1).Floor
  }

  /** Every position from 0 to i can be chosen. */
  lemma SwapIndexCovers(i: nat, j: nat)
    requires j <= i
    ensures SwapIndex(j as real / (i + 1) as real, i) == j
  {
    var r: UnitReal := j as real / (i + 1) as real;
    assert r * (i + 1) as real == j as real;
  }

  /** `s` with the elements at positions i and j exchanged. */
  function Swap(s: seq<int>, i: nat, j: nat): (t: seq<int>)
    requires i < |s| && j < |s|
    ensures |t| == |s|
  {
    s[i := s[j]][j := s[i]]
  }

  /**
   * One iteration of `for (i = n - 1; i > 0; i--)`: position i is swapped
   * with a random position at or below it. The call of `Math.random()` made
   * for position i is the (n - 1 - i)-th.
   */
  function Step(s: seq<int>, i: nat, random: Random): (t: seq<int>)
    requires 0 < i < |s|
    ensures |t| == |s|
  {
    Swap(s, i, SwapIndex(random(|s| - 1 - i), i))
  }

  /** The participants once the loop has handled every position above i. */
  function ShuffledDownTo(s: seq<int>, i: int, random: Random): (t: seq<int>)
    requires -1 <= i < |s|
    requires i == -1 ==> |s| == 0
    ensures |t| == |s|
    decreases |s| - i
  {
    if i == |s| - 1 then s
    else Step(ShuffledDownTo(s, i + 1, random), i + 1, random)
  }

  /** The whole Fisher–Yates shuffle of `s`: the loop stops when i reaches 0. */
  function Shuffled(s: seq<int>, random: Random): (t: seq<int>)
    ensures |t| == |s|
  {
    ShuffledDownTo(s, if |s| == 0 then -1 else 0, random)
  }

  lemma SwapPermutes(s: seq<int>, i: nat, j: nat)
    requires i < |s| && j < |s|
    ensures multiset(Swap(s, i, j)) == multiset(s)
  {
    if i != j {
      var u := s[i := s[j]];
      assert multiset(u) == multiset(s) - multiset{s[i]} + multiset{s[j]};
      assert multiset(Swap(s, i, j)) == multiset(u) - multiset{u[j]} + multiset{s[i]};
    }
  }

  lemma SwapKeepsDistinct(s: seq<int>, i: nat, j: nat)
    requires i < |s| && j < |s|
    requires Distinct(s)
    ensures Distinct(Swap(s, i, j))
  {
    var t := Swap(s, i, j);
    forall p, q | 0 <= p < q < |t| ensures t[p] != t[q] {
      var p' := if p == i then j else if p == j then i else p;
      var q' := if q == i then j else if q == j then i else q;
      assert t[p] == s[p'] && t[q] == s[q'];
    }
  }

  /** The shuffle only rearranges: the multiset of values stays the same. */
  lemma {:induction false} ShuffledDownToPermutes(s: seq<int>, i: int, random: Random)
    requires -1 <= i < |s|
    requires i == -1 ==> |s| == 0
    ensures multiset(ShuffledDownTo(s, i, random)) == multiset(s)
    decreases |s| - i
  {
    if i < |s| - 1 {
      ShuffledDownToPermutes(s, i + 1, random);
      SwapPermutes(ShuffledDownTo(s, i + 1, random), i + 1, SwapIndex(random(|s| - 1 - (i + 1)), i + 1));
    }
  }

  /** Distinct values stay distinct under the shuffle. */
  lemma {:induction false} ShuffledDownToDistinct(s: seq<int>, i: int, random: Random)
    requires -1 <= i < |s|
    requires i == -1 ==> |s| == 0
    requires Distinct(s)
    ensures Distinct(ShuffledDownTo(s, i, random))
    decreases |s| - i
  {
    if i < |s| - 1 {
      ShuffledDownToDistinct(s, i + 1, random);
      SwapKeepsDistinct(ShuffledDownTo(s, i + 1, random), i + 1, SwapIndex(random(|s| - 1 - (i + 1)), i + 1));
    }
  }

  lemma ShufflePermutes(s: seq<int>, random: Random)
    ensures multiset(Shuffled(s, random)) == multiset(s)
    ensures Distinct(s) ==> Distinct(Shuffled(s, random))
  {
    ShuffledDownToPermutes(s, if |s| == 0 then -1 else 0, random);
    if Distinct(s) {
      ShuffledDownToDistinct(s, if |s| == 0 then -1 else 0, random);
    }
  }

  /**
   * Once the loop has passed position p, no later iteration changes it: the
   * value there when the loop is at i is already the final one.
   */
  lemma {:induction false} ShuffledKeepsPassed(s: seq<int>, i: int, random: Random, p: nat)
    requires 0 <= i < p < |s|
    ensures Shuffled(s, random)[p] == ShuffledDownTo(s, i, random)[p]
    decreases i
  {
    if i > 0 {
      ShuffledKeepsPassed(s, i - 1, random, p);
    }
  }

  /** `[a[i], a[j]] = [a[j], a[i]]` */
  method SwapInPlace(a: array<int>, i: nat, j: nat)
    requires i < a.Length && j < a.Length
    modifies a
    ensures a[..] == Swap(old(a[..]), i, j)
  {
    var t := a[i];
    a[i] := a[j];
    a[j] := t;
  }

  /**
   * The shuffle, in place on the array the participants were copied into.
   * Positions above `i` already hold their final values. That the result is
   * a permutation of the input is `ShufflePermutes`.
   */
  method Shuffle(a: array<int>, random: Random)
    modifies a
    ensures a[..] == Shuffled(old(a[..]), random)
  {
    ghost var original := a[..];
    var i := a.Length - 1;
    while i > 0
      invariant -1 <= i < a.Length && (i == -1 ==> a.Length == 0)
      invariant a[..] == ShuffledDownTo(original, i, random)
      invariant forall p :: i < p < a.Length ==> a[p] == Shuffled(original, random)[p]
    {
      var j := SwapIndex(random(a.Length - 1 - i), i);
      SwapInPlace(a, i, j);
      i := i - 1;
      ShuffledKeepsPassed(original, i, random, i + 1);
    }
  }

  /**
   * What the handler answers for a body, given the stored tickets in
   * `find({})` order: an invalid count is refused whatever is stored; too
   * small a pool is refused with both counts; otherwise exactly the requested
   * number of winners.
   */
  function Draw(pool: seq<int>, body: DrawBody, random: Random): (r: Result<seq<int>, DrawError>)
    ensures ValidateCount(body.cantidadGanadores).Err? ==> r == Err(InvalidCount)
    ensures ValidateCount(body.cantidadGanadores).Ok? ==>
              var count := ValidateCount(body.cantidadGanadores).value;
              && (r.Err? <==> |pool| < count)
              && (r.Err? ==> r.error == NotEnoughParticipants(count, |pool|))
    ensures r.Ok? ==> |r.value| as real == body.cantidadGanadores.x
  {
    match ValidateCount(body.cantidadGanadores)
    case Err(e) => Err(e)
    case Ok(count) =>
      if |pool| < count then Err(NotEnoughParticipants(count, |pool|))
      else Ok(Shuffled(pool, random)[..count])
  }

  /**
   * The winners of a draw all come from the pool (as a sub-multiset, so no
   * ticket more often than it is stored), and are pairwise distinct when the
   * stored values are.
   */
  lemma DrawCorrect(pool: seq<int>, body: DrawBody, random: Random)
    ensures Draw(pool, body, random).Ok? ==>
              var winners := Draw(pool, body, random).value;
              && multiset(winners) <= multiset(pool)
              && (forall w :: w in winners ==> w in pool)
              && (Distinct(pool) ==> Distinct(winners))
  {
    var validated := ValidateCount(body.cantidadGanadores);
    if validated.Ok? && validated.value <= |pool| {
      var count := validated.value;
      var shuffled := Shuffled(pool, random);
      ShufflePermutes(pool, random);
      assert shuffled == shuffled[..count] + shuffled[count..];
      assert multiset(shuffled[..count]) <= multiset(shuffled);
      forall w | w in shuffled[..count] ensures w in pool {
        assert w in multiset(shuffled[..count]);
      }
    }
  }

  /**
   * The handler. It reads the store (`find({})`) and changes nothing in it:
   * the method has no `modifies` clause for the store. The shuffle runs on
   * a fresh array holding the participants.
   */
  method Post(store: NumberStore, body: DrawBody, random: Random) returns (response: Result<seq<int>, DrawError>)
    requires store.Valid()
    ensures response == Draw(store.values, body, random)
    ensures response.Ok? ==>
              && |response.value| as real == body.cantidadGanadores.x
              && Distinct(response.value)
              && forall w :: w in response.value ==> w in store.values
  {
    var validated := ValidateCount(body.cantidadGanadores);
    if validated.Err? {
      return Err(validated.error);
    }
    var count := validated.value;
    var participants := store.Find();
    if |participants| < count {
      return Err(NotEnoughParticipants(count, |participants|));
    }
    var a := new int[|participants|](i requires 0 <= i < |participants| => participants[i]);
    assert a[..] == participants;
    Shuffle(a, random);
    response := Ok(a[..count]);
    DrawCorrect(store.values, body, random);
  }
}
