/**
 * The draw page's checks before it asks for a draw (`handleRealizarSorteo`):
 * the typed winner count is parsed with `parseInt(…, 10)`, the two pinned
 * placements, constants of the page, are checked, and the request body is
 * built. The first failing check is the one reported, and no request is sent.
 */
module SorteoPage {
  import opened Wrappers
  import opened JsValues
  import opened JsText
  import RealizarSorteo

  /** `primerPuestoDefinido` and `segundoPuestoDefinido` as the page sets them. */
  const PrimerPuestoDefinido: Value := Null
  const SegundoPuestoDefinido: Value := Null

  datatype PageError = InvalidCount | InvalidFirstPin | InvalidSecondPin | SamePins

  function Message(e: PageError): string {
    match e
    case InvalidCount => "Por favor, ingresa una cantidad válida de ganadores."
    case InvalidFirstPin => "El primer puesto manual definido debe ser un número entero válido."
    case InvalidSecondPin => "El segundo puesto manual definido debe ser un número entero válido."
    case SamePins => "El primer y segundo puesto manual no pueden ser el mismo número."
  }

  /**
   * The checks, in the page's order, on the typed count and the two pins;
   * on success, the body sent to the draw endpoint.
   */
  function ValidateDraw(cantidad: string, primero: Value, segundo: Value): (r: Result<RealizarSorteo.DrawBody, PageError>)
    ensures ParseInt(cantidad).None? ==> r == Err(InvalidCount)
    ensures r.Ok? ==> ParseInt(cantidad).Some? && ParseInt(cantidad).value >= 1
                      && r.value.cantidadGanadores == Number(ParseInt(cantidad).value as real)
  {
    CheckParsed(ParseInt(cantidad), primero, segundo)
  }

  /** The checks once the count is parsed (`cantidadNumerica`; `None` is NaN). */
  function CheckParsed(parsed: Option<int>, primero: Value, segundo: Value): (r: Result<RealizarSorteo.DrawBody, PageError>)
    ensures r.Ok? <==>
              && parsed.Some? && parsed.value >= 1
              && PinAccepted(primero) && PinAccepted(segundo)
              && !(primero.Number? && segundo.Number? && primero.x == segundo.x)
  {
    if parsed.None? || parsed.value <= 0 then Err(InvalidCount)
    else if primero != Undefined && !IsInteger(primero) then Err(InvalidFirstPin)
    else if segundo != Undefined && !IsInteger(segundo) then Err(InvalidSecondPin)
    else if primero != Undefined && segundo != Undefined && StrictEquals(primero, segundo) then Err(SamePins)
    else Ok(RealizarSorteo.DrawBody(Number(parsed.value as real), primero, segundo))
  }

  /** A pin passes its own check when it is `undefined` or an integer. */
  predicate PinAccepted(pin: Value) {
    pin == Undefined || (pin.Number? && pin.x.Floor as real == pin.x)
  }

  /**
   * Which check fails first, stated check by check; and what a successful
   * validation sends: the parsed count as a number and both pins unchanged.
   */
  lemma CheckOrder(parsed: Option<int>, primero: Value, segundo: Value)
    ensures var r := CheckParsed(parsed, primero, segundo);
            var countOk := parsed.Some? && parsed.value >= 1;
            && (r == Err(InvalidCount) <==> !countOk)
            && (r == Err(InvalidFirstPin) <==> countOk && !PinAccepted(primero))
            && (r == Err(InvalidSecondPin) <==> countOk && PinAccepted(primero) && !PinAccepted(segundo))
            && (r == Err(SamePins) <==>
                  countOk && PinAccepted(primero) && PinAccepted(segundo)
                  && primero.Number? && segundo.Number? && primero.x == segundo.x)
            && (r.Ok? ==>
                  && r.value.cantidadGanadores == Number(parsed.value as real)
                  && r.value.primerPuestoManual == primero
                  && r.value.segundoPuestoManual == segundo)
  {
  }

  /** Every body the page sends passes the draw endpoint's count check, with the same count. */
  lemma SentCountAccepted(parsed: Option<int>, primero: Value, segundo: Value)
    requires CheckParsed(parsed, primero, segundo).Ok?
    ensures RealizarSorteo.ValidateCount(CheckParsed(parsed, primero, segundo).value.cantidadGanadores)
            == Ok(parsed.value)
  {
    var n := parsed.value;
    assert (n as real).Floor == n;
  }

  /**
   * With the pins the page defines (both `null`), no count gets through:
   * `null !== undefined` holds and `Number.isInteger(null)` is false, so the
   * first-pin check refuses every count that is itself valid.
   */
  lemma ConfiguredPinsRefuseEveryDraw(parsed: Option<int>)
    ensures CheckParsed(parsed, PrimerPuestoDefinido, SegundoPuestoDefinido).Err?
    ensures parsed.Some? && parsed.value >= 1 ==>
              CheckParsed(parsed, PrimerPuestoDefinido, SegundoPuestoDefinido) == Err(InvalidFirstPin)
  {
  }

  /** The input that shows it: asking for three winners. */
  lemma ThreeWinnersRefused()
    ensures ValidateDraw("3", PrimerPuestoDefinido, SegundoPuestoDefinido) == Err(InvalidFirstPin)
  {
    assert ParseInt("3") == Some(3) by {
      ParseIntOfDecimal(3, "");
      assert IntToDecimal(3) + "" == "3";
    }
    ConfiguredPinsRefuseEveryDraw(Some(3));
  }

  /**
   * The evident intent of the page, whose comment on the pins says that
   * `undefined` and `null` both mean "no manual placement": a pin is present
   * only when it is neither, and only a present pin is checked.
   */
  predicate PinSet(pin: Value) {
    pin != Undefined && pin != Null
  }

  function CheckParsedIntended(parsed: Option<int>, primero: Value, segundo: Value): Result<RealizarSorteo.DrawBody, PageError>
  {
    if parsed.None? || parsed.value <= 0 then Err(InvalidCount)
    else if PinSet(primero) && !IsInteger(primero) then Err(InvalidFirstPin)
    else if PinSet(segundo) && !IsInteger(segundo) then Err(InvalidSecondPin)
    else if PinSet(primero) && PinSet(segundo) && StrictEquals(primero, segundo) then Err(SamePins)
    else Ok(RealizarSorteo.DrawBody(Number(parsed.value as real), primero, segundo))
  }

  /**
   * The corrected checks accept every valid count when the pins are absent,
   * `null` included; and they agree with the page's checks whenever no pin
   * is `null`.
   */
  lemma IntendedAcceptsAbsentPins(parsed: Option<int>, primero: Value, segundo: Value)
    requires parsed.Some? && parsed.value >= 1
    requires !PinSet(primero) && !PinSet(segundo)
    ensures CheckParsedIntended(parsed, primero, segundo)
            == Ok(RealizarSorteo.DrawBody(Number(parsed.value as real), primero, segundo))
  {
  }

  lemma IntendedAgreesWithoutNull(parsed: Option<int>, primero: Value, segundo: Value)
    requires primero != Null && segundo != Null
    ensures CheckParsedIntended(parsed, primero, segundo) == CheckParsed(parsed, primero, segundo)
  {
  }
}
