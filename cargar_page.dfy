/**
 * The ticket page's "copy text" button (`handleCopyText`): the message put on
 * the clipboard for the numbers just issued, and the alert shown after it.
 */
module CargarPage {
  import opened Wrappers
  import opened JsText

  const SinglePrefix := "Tu número para el sorteo es: "
  const ManyPrefix := "Tus números para el sorteo son: "

  /** What one press of the button does: the text copied and the alert shown. */
  datatype Copied = Copied(clipboard: string, alert: string)

  /** The numbers written as JavaScript writes them. */
  function Decimals(numbers: seq<int>): (parts: seq<string>)
    ensures |parts| == |numbers|
    ensures forall i :: 0 <= i < |parts| ==> parts[i] == IntToDecimal(numbers[i])
  {
    if numbers == [] then [] else [IntToDecimal(numbers[0])] + Decimals(numbers[1..])
  }

  /**
   * Nothing for an empty list; the singular message for one number (the
   * branch returns early); otherwise the plural message with the numbers in
   * list order, joined by ", ".
   */
  function CopyText(numbers: seq<int>): (r: Option<Copied>)
    ensures r.Some? <==> |numbers| > 0
    ensures |numbers| == 1 ==> SinglePrefix <= r.value.clipboard
    ensures |numbers| > 1 ==> ManyPrefix <= r.value.clipboard
  {
    if |numbers| > 0 then
      if |numbers| == 1 then
        Some(Copied(SinglePrefix + IntToDecimal(numbers[0]), "¡Número copiado al portapapeles!"))
      else
        Some(Copied(ManyPrefix + Join(Decimals(numbers)), "¡Números copiados al portapapeles!"))
    else None
  }

  /** Reads each piece back with `parseInt`; `None` if any piece is not a number. */
  function ParseAll(parts: seq<string>): Option<seq<int>>
  {
    if parts == [] then Some([])
    else
      match (ParseInt(parts[0]), ParseAll(parts[1..]))
      case (Some(v), Some(vs)) => Some([v] + vs)
      case _ => None
  }

  /** The numbers a copied message lists, read back from its text. */
  function ReadCopyText(text: string): Option<seq<int>>
  {
    if SinglePrefix <= text then
      match ParseInt(text[|SinglePrefix|..])
      case Some(v) => Some([v])
      case None => None
    else if ManyPrefix <= text then ParseAll(Split(text[|ManyPrefix|..]))
    else None
  }

  lemma {:induction false} ParseAllDecimals(numbers: seq<int>)
    ensures ParseAll(Decimals(numbers)) == Some(numbers)
  {
    if numbers != [] {
      ParseAllDecimals(numbers[1..]);
      ParseIntOfDecimal(numbers[0], "");
      assert IntToDecimal(numbers[0]) + "" == IntToDecimal(numbers[0]);
      assert Decimals(numbers)[1..] == Decimals(numbers[1..]);
      assert [numbers[0]] + numbers[1..] == numbers;
    }
  }

  /** The copied text lists exactly the numbers, in order: reading it back gives the list. */
  lemma CopyTextRoundTrip(numbers: seq<int>)
    ensures numbers != [] ==> ReadCopyText(CopyText(numbers).value.clipboard) == Some(numbers)
  {
    if |numbers| == 1 {
      var text := SinglePrefix + IntToDecimal(numbers[0]);
      assert text[|SinglePrefix|..] == IntToDecimal(numbers[0]) + "";
      ParseIntOfDecimal(numbers[0], "");
      assert [numbers[0]] == numbers;
    } else if |numbers| > 1 {
      var parts := Decimals(numbers);
      var text := ManyPrefix + Join(parts);
      assert !(SinglePrefix <= text) by {
        assert text[2] == 's' && SinglePrefix[2] == ' ';
      }
      assert text[|ManyPrefix|..] == Join(parts);
      SplitJoin(parts);
      ParseAllDecimals(numbers);
    }
  }
}
