/** The currency table of constants/currencies.ts and its symbol lookup. */
module Currencies {
  import opened Wrappers

  datatype Currency = Currency(code: string, symbol: string, name: string)

  /** CURRENCIES: six entries, distinct codes, every symbol non-empty. */
  function Table(): (t: seq<Currency>)
    ensures |t| == 6
    ensures forall i, j :: 0 <= i < j < |t| ==> t[i].code != t[j].code
    ensures forall i :: 0 <= i < |t| ==> t[i].symbol != ""
  {
    [ Currency("USD", "$", "US Dollar"),
      Currency("EUR", "\U{20AC}", "Euro"),
      Currency("GBP", "\U{00A3}", "British Pound"),
      Currency("JPY", "\U{00A5}", "Japanese Yen"),
      Currency("NGN", "\U{20A6}", "Nigerian Naira"),
      Currency("LBP", "\U{0644}.\U{0644}", "Lebanese Pound") ]
  }

  /** Array.prototype.find: the first entry whose code is `code`, if any. */
  function Find(t: seq<Currency>, code: string): (r: Option<Currency>)
    ensures r.None? <==> forall i :: 0 <= i < |t| ==> t[i].code != code
    ensures r.Some? ==> exists i :: 0 <= i < |t| && t[i] == r.value && t[i].code == code &&
                                    forall j :: 0 <= j < i ==> t[j].code != code
  {
    if t == [] then None
    else if t[0].code == code then Some(t[0])
    else
      Find(t[1..], code)
  }

  /** getCurrencySymbol: the symbol of the entry with this code, falling back to the code itself. */
  function GetCurrencySymbol(code: string): (r: string)
    ensures forall i :: 0 <= i < |Table()| && Table()[i].code == code ==> r == Table()[i].symbol
    ensures (forall i :: 0 <= i < |Table()| ==> Table()[i].code != code) ==> r == code
  {
    var found := Find(Table(), code);
    if found.Some? && found.value.symbol != "" then found.value.symbol else code
  }
}
