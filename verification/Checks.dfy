/** The small semantic checks shared by the kinds of contracts. */
module Checks {
  import opened Wrappers
  import opened Text
  import opened Lists

  /** A timestamp: its text, and the instant `Date.parse` reads in it, if any. */
  datatype Timestamp = Timestamp(text: string, instant: Option<int>)

  /** `YYYY-MM-DDThh:mm:ss`, whatever follows. */
  predicate HasStamp(text: string) {
    |text| >= 19 && forall i | 0 <= i < 19 ::
      if i == 4 || i == 7 then text[i] == '-' else if i == 10 then text[i] == 'T' else if i == 13 || i == 16 then text[i] == ':' else IsDigit(text[i])
  }

  function NumberAt(text: string, from: nat, to: nat): nat
    requires from <= to <= |text| && forall i | from <= i < to :: IsDigit(text[i])
  {
    IndexValue(text[from..to])
  }

  /** The year as `Date.UTC` takes it: 0 to 99 are years of the 20th century. */
  function UtcYear(year: nat): nat { if year < 100 then 1900 + year else year }

  function DaysIn(year: nat, month: nat): nat {
    if month == 2 then (if year % 4 == 0 && (year % 100 != 0 || year % 400 == 0) then 29 else 28)
    else if month in {4, 6, 9, 11} then 30 else 31
  }

  /** The text denotes a real instant: a day of the calendar and a time of the day. */
  predicate IsRealTimestamp(t: Timestamp) {
    && HasStamp(t.text) && t.instant.Some?
    && 1 <= NumberAt(t.text, 5, 7) <= 12
    && 1 <= NumberAt(t.text, 8, 10) <= DaysIn(UtcYear(NumberAt(t.text, 0, 4)), NumberAt(t.text, 5, 7))
    && NumberAt(t.text, 11, 13) < 24 && NumberAt(t.text, 14, 16) < 60 && NumberAt(t.text, 17, 19) < 60
  }

  /** Every identifier that appears more than once, at each further appearance. */
  method UniqueIds(ids: seq<string>) returns (found: seq<string>)
    ensures found == [] <==> NoRepeat(ids)
    ensures forall id :: id in found <==> exists i, j :: 0 <= i < j < |ids| && ids[i] == id && ids[j] == id
  {
    found := [];
    var seen: set<string> := {};
    for i := 0 to |ids|
      invariant seen == SetOf(ids[..i])
      invariant found == [] <==> NoRepeat(ids[..i])
      invariant forall id :: id in found <==> exists k, j :: 0 <= k < j < i && ids[k] == id && ids[j] == id
    {
      assert ids[..i + 1] == ids[..i] + [ids[i]];
      NoRepeatStep(ids[..i], ids[i]);
      assert ids[i] in seen <==> exists k :: 0 <= k < i && ids[k] == ids[i];
      if ids[i] in seen {
        found := found + [ids[i]];
      }
      seen := seen + {ids[i]};
    }
    assert ids[..|ids|] == ids;
  }

  /** The values outside the known set. */
  method KnownIds(values: seq<string>, known: set<string>) returns (found: seq<string>)
    ensures forall id :: id in found <==> id in values && id !in known
    ensures found == [] <==> SetOf(values) <= known
  {
    found := [];
    for i := 0 to |values|
      invariant forall id :: id in found <==> id in values[..i] && id !in known
    {
      assert values[..i + 1] == values[..i] + [values[i]];
      if values[i] !in known {
        found := found + [values[i]];
      }
    }
    assert values[..|values|] == values;
    if found != [] {
      assert found[0] in found;
    }
  }
}
