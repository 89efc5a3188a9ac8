# Rey Santo raffle — a Dafny model

This project models the core of a small raffle web application. Buyers pay an
amount (`monto`). For every 3000 paid, the server issues one fresh five-digit
raffle number (10000–99999), stores it, and returns the new numbers. The buyer's
page can copy those numbers to the clipboard as a short message. On draw day the
organiser's page checks the number of winners and two optional "manual place"
pins, then posts the request. The draw endpoint validates the count, reads every
stored number, shuffles them with Fisher–Yates and returns the first `count`.

Modules:

- `JsValues` — JSON values as the handlers receive them (`undefined`, `null`,
  booleans, numbers, strings), `Number.isInteger`, strict equality `===`, and
  `Math.random` as a sequence of reals in [0, 1). The k-th call returns `random(k)`.
- `JsText` — `parseInt(s, 10)` (`None` stands for `NaN`), the decimal rendering
  of an integer, and `Array.join(', ')` with its inverse.
- `NumberModel` — the `Number` collection. It is a class holding the list of
  stored values; a save appends. `Valid()` holds when every value is in range
  and no value appears twice, which leaves room for at most 90000 documents.
  `Save` checks the schema in the order mongoose does: required, min, max,
  then the unique index.
- `GenerateNumber` — the ticket-issuing endpoint. `Post` works against a
  specification (`TicketCount`, `FirstFresh`, `Mint`), and the `MintFresh`
  lemma proves what the loop promises. Further lemmas show when a request can
  never complete because the collection has no room left.
- `RealizarSorteo` — the draw endpoint. `Shuffle` swaps in place on an array and
  is proved against the functional specification `Shuffled`. The lemmas prove
  that the shuffle permutes its input, that every index can be chosen, and that
  the winners are distinct stored numbers.
- `SorteoPage` — the organiser page's validation chain, the request body it
  sends, and the consequence of the configured pins (see Findings).
- `CargarPage` — the buyer page's copy-to-clipboard text and its read-back.

## Model

| member | source | states |
|---|---|---|
| NumberModel.SaveCheck | app/lib/models/Number.ts:4-10 | each refusal exactly when it is the first violated rule (missing value, below 10000, above 99999, value already stored); acceptance exactly when the value is present, in range and not stored |
| NumberModel.SaveCheckAccepts | app/lib/models/Number.ts:4-10 | an accepted save keeps the collection in range and duplicate-free |
| NumberModel.CapacityBound | app/lib/models/Number.ts:6-9 | `unique` together with `min: 10000` and `max: 99999` admits at most 90000 documents |
| NumberModel.FullCollection | app/lib/models/Number.ts:6-9 | a collection holding 90000 documents holds every admissible value |
| NumberModel.NumberStore.constructor | app/lib/models/Number.ts:3-14 | a fresh collection is empty and satisfies the schema |
| NumberModel.NumberStore.FindOne | app/api/generate-number/route.ts:39 | `findOne({ value })` finds a document exactly when the value is stored |
| NumberModel.NumberStore.Save | app/lib/models/Number.ts:4-10 | a save either fails with the first schema violation and leaves the collection unchanged, or appends the value; the schema invariant is kept |
| NumberModel.NumberStore.Find | app/api/realizar-sorteo/route.ts:24-25 | `find({})` returns every stored value, in the order the model fixes for the collection (insertion order) |
| GenerateNumber.TicketCount | app/api/generate-number/route.ts:13-28 | a non-number or non-positive amount is rejected as invalid; a positive amount below 3000 is rejected as insufficient; otherwise the count is floor(monto / 3000) >= 1 |
| GenerateNumber.Candidate | app/api/generate-number/route.ts:37 | `Math.floor(10000 + Math.random() * 90000)` always lies in 10000..99999 |
| GenerateNumber.CandidateCovers | app/api/generate-number/route.ts:37 | every number in 10000..99999 is produced by some random value |
| GenerateNumber.FirstFresh | app/api/generate-number/route.ts:35-47 | the retry loop stops at the first candidate not already stored; it is in range, not stored, and used up at least one draw |
| GenerateNumber.FirstFreshIsFirst | app/api/generate-number/route.ts:35-47 | the ticket is the last draw made and every earlier draw hit a stored value; the draws run out only when every remaining draw hits a stored value |
| GenerateNumber.MintFresh | app/api/generate-number/route.ts:30-48 | `Mint`, the numbers issued by one request, are in range, pairwise distinct and absent from the collection before the request, and there are at most `count` of them |
| GenerateNumber.FreshTicketsStored | app/api/generate-number/route.ts:30-48 | appending the issued numbers keeps the collection within the schema |
| GenerateNumber.NoRoomNeverCompletes | app/api/generate-number/route.ts:30-48 | when floor(monto/3000) exceeds the room left (90000 minus the stored count), no bound on the draws lets the request issue all its tickets: the source loops forever |
| GenerateNumber.FullCollectionExhausts | app/api/generate-number/route.ts:35-47 | once 90000 values are stored, every draw collides and the retry loop finds nothing |
| GenerateNumber.MintTicket | app/api/generate-number/route.ts:33-47 | the inner loop (findOne, then save) issues exactly the first fresh candidate and appends it to the collection; the schema invariant is kept |
| GenerateNumber.MintTickets | app/api/generate-number/route.ts:30-48 | the outer loop issues `Mint(...)` tickets, in order, and the collection grows by exactly those tickets |
| GenerateNumber.Post | app/api/generate-number/route.ts:5-60 | a bad amount gives a 400 and leaves the collection unchanged; otherwise the 201 response lists `floor(monto/3000)` new numbers, fresh and distinct, which are exactly what was appended, and which fit in the room the collection had |
| RealizarSorteo.ValidateCount | app/api/realizar-sorteo/route.ts:12-21 | the count is accepted exactly when it is a number, integral and at least 1 |
| RealizarSorteo.Times | app/api/realizar-sorteo/route.ts:37 | `Math.random() * (i + 1)` lies in [0, i + 1) |
| RealizarSorteo.SwapIndex | app/api/realizar-sorteo/route.ts:37 | the swap partner `j` is at most `i` |
| RealizarSorteo.SwapIndexCovers | app/api/realizar-sorteo/route.ts:37 | every `j` in 0..i is chosen by some random value |
| RealizarSorteo.SwapPermutes | app/api/realizar-sorteo/route.ts:38 | the destructuring swap only reorders the array |
| RealizarSorteo.Shuffled | app/api/realizar-sorteo/route.ts:36-39 | the shuffled list has the length of its input (that it is a permutation is `ShufflePermutes`) |
| RealizarSorteo.ShufflePermutes | app/api/realizar-sorteo/route.ts:35-39 | Fisher–Yates yields a permutation of its input and keeps a duplicate-free list duplicate-free |
| RealizarSorteo.ShuffledKeepsPassed | app/api/realizar-sorteo/route.ts:36-39 | once the loop has moved below position `p`, the entry at `p` is final |
| RealizarSorteo.SwapInPlace | app/api/realizar-sorteo/route.ts:38 | the array afterwards is the input with positions `i` and `j` exchanged |
| RealizarSorteo.Shuffle | app/api/realizar-sorteo/route.ts:36-39 | the in-place loop leaves exactly `Shuffled(old array, random)` in the array |
| RealizarSorteo.Draw | app/api/realizar-sorteo/route.ts:12-42 | an invalid count is refused whatever is stored; too few participants is refused exactly when the pool is smaller than the count, with both numbers; otherwise the winners number exactly `count` |
| RealizarSorteo.DrawCorrect | app/api/realizar-sorteo/route.ts:35-42 | the winners are a sub-multiset of the pool, so every winner is a stored number, and they are distinct when the stored numbers are |
| RealizarSorteo.Post | app/api/realizar-sorteo/route.ts:5-53 | the handler's response is the `Draw` specification on the stored numbers, so the winners are `count` distinct stored numbers; the collection is not modified |
| JsValues.IsIntegerExactly | app/api/realizar-sorteo/route.ts:14 | `Number.isInteger` holds exactly for the numbers that denote an integer |
| JsValues.StrictEquals | app/sorteo/page.tsx:53 | `===` converts nothing between kinds, so it holds exactly when both sides are the same value |
| JsText.ParseIntDefined | app/sorteo/page.tsx:34 | `parseInt(s, 10)` is NaN exactly when no digit follows the leading white space and optional sign; after '-' the result is not positive, otherwise not negative (`ParseIntOfDecimal` is its inverse) |
| JsText.TrimStart | app/sorteo/page.tsx:34 | `parseInt` skips exactly the leading white space |
| JsText.DigitPrefix | app/sorteo/page.tsx:34 | `parseInt` reads the longest run of decimal digits |
| JsText.NatToDecimal | app/cargar/page.tsx:59 | a natural is written as a non-empty run of digits with no leading zero |
| JsText.IntToDecimal | app/cargar/page.tsx:59-63 | an integer is written as digits with an optional leading '-', and never contains ',' or ' ' |
| JsText.DigitsValueOfDecimal | app/cargar/page.tsx:59 | reading back the digits of a natural gives the natural |
| JsText.ParseIntOfDecimal | app/sorteo/page.tsx:34 | `parseInt` of an integer's decimal text, followed by anything that does not start with a digit, gives back the integer |
| JsText.Join | app/cargar/page.tsx:63 | `join(', ')` keeps the pieces in order with one two-character separator between neighbours: the first piece leads, and the length is the pieces' total plus two per separator |
| JsText.SplitJoin | app/cargar/page.tsx:63 | `Split`, a reference inverse written for the round trip (the source never splits), recovers comma-free pieces from their `join(', ')` |
| SorteoPage.ValidateDraw | app/sorteo/page.tsx:34-91 | text `parseInt` cannot read is refused as an invalid count; a request body is built only from a count `parseInt` reads as at least 1, and carries that count |
| SorteoPage.CheckParsed | app/sorteo/page.tsx:35-57 | the draw is accepted exactly when the count is at least 1, each pin is `undefined` or an integer, and the pins are not the same number |
| SorteoPage.CheckOrder | app/sorteo/page.tsx:34-57 | each error is reported exactly when its check fails and every earlier check passed: count, then first pin, then second pin, then equal pins |
| SorteoPage.SentCountAccepted | app/sorteo/page.tsx:34-91 | every count the page lets through is accepted by the draw endpoint's validation |
| SorteoPage.ConfiguredPinsRefuseEveryDraw | app/sorteo/page.tsx:13-46 | with both pins set to `null`, as configured, every draw request is refused before it is sent |
| SorteoPage.ThreeWinnersRefused | app/sorteo/page.tsx:13-46 | asking for "3" winners is refused with the first-pin message |
| SorteoPage.IntendedAcceptsAbsentPins | app/sorteo/page.tsx:12-57 | when a missing pin may be `undefined` or `null`, a valid count with no pins is accepted |
| SorteoPage.IntendedAgreesWithoutNull | app/sorteo/page.tsx:42-57 | the corrected check gives the same result as the written one whenever neither pin is `null` |
| CargarPage.CopyText | app/cargar/page.tsx:54-66 | nothing is copied for an empty list; one number gets the singular message and several the plural one |
| CargarPage.ParseAllDecimals | app/cargar/page.tsx:63 | the written numbers read back, one by one, as the same numbers |
| CargarPage.CopyTextRoundTrip | app/cargar/page.tsx:54-66 | the copied text lists exactly the issued numbers in order: reading it back yields the list |

## Left out

- Database connection, HTTP parsing, `fetch`, React state, the countdown, audio and confetti are not modelled. The collection is in memory, and a request body is given as already-parsed `Value`s.
- The `catch` blocks that answer 500 (a database failure, a malformed JSON body) are not modelled. With the in-memory collection no step throws.
- Concurrent requests are not modelled. In particular, two issue requests that race between `findOne` and `save` are not modelled: each handler runs alone.
- The `createdAt` field and its `Date.now` default are not modelled: nothing in the core reads it.
- `handleGenerateNumbers` (`parseFloat` of the typed amount) is not modelled. The endpoint's own validation of `monto` is modelled instead.
- Numbers are exact reals, not IEEE doubles: `NaN`, `Infinity`, rounding and the loss of precision of `parseInt` above 2^53 are not modelled. In particular a body such as `{"monto":1e400}` parses to `Infinity`, passes the amount check, and makes the issuing loop run forever; the model has no such amount.
- GenerateNumber.Post: the retry loop has no bound in the source. The model bounds the total number of `Math.random` draws with `maxDraws`, and when the bound runs out it answers `OutOfDraws` with the tickets already issued and stored. Where the source would loop forever for certain (more tickets asked than the 90000-value range has room for), every bound gives `OutOfDraws` (`NoRoomNeverCompletes`, `FullCollectionExhausts`); otherwise the source's loop ends with probability 1, which the model does not state.
- NumberModel.NumberStore.Find: MongoDB leaves the order of an unsorted `find({})` unspecified; the model fixes it as insertion order, so `RealizarSorteo.Post` determines the winners' order from that assumption. `DrawCorrect` does not depend on the order.
- NumberModel.NumberStore: values are integers. The schema's `type: Number` also admits fractional values between 10000 and 99999, but the only writer saves `Math.floor` results.
- RealizarSorteo.Shuffle: its contract ties the array to `Shuffled`. The permutation property is proved about `Shuffled` in `ShufflePermutes`, not restated in the method's contract.
- The draw endpoint reads only `cantidadGanadores`: the pins the page sends are ignored by the server, so no pin-placement logic is modelled.
- The `random` argument is the sequence of `Math.random()` results. The model proves that every outcome is reachable (`CandidateCovers`, `SwapIndexCovers`) but says nothing about probabilities or uniformity.
- `alert` and `navigator.clipboard.writeText` are modelled only as the two strings they receive (`CargarPage.Copied`).

## Findings

| source | as written | input that shows it | evidently intended | confidence | as-written member | corrected member |
|---|---|---|---|---|---|---|
| app/sorteo/page.tsx:13-14,42-46 | a pin is rejected unless it is `undefined` or an integer, so the configured `null` pins fail `Number.isInteger` | cantidadGanadores "3" with both pins `null`, as configured: the page answers "El primer puesto manual definido debe ser un número entero válido." and never posts | the comment at line 12 says that `undefined` or `null` both mean "no manual place", so a null pin should be skipped | not executed | SorteoPage.ThreeWinnersRefused | SorteoPage.IntendedAcceptsAbsentPins |
