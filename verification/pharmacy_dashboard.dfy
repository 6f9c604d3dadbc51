/**
 * The pharmacy dashboard's own logic (`PharmacyDashboard.jsx`): the bulk
 * "Name,Stock,Price" parser and its counters, the single-add guard and
 * name lookup, and the gating of the accept/reject controls. Request
 * outcomes are parameters.
 */
module PharmacyDashboard {
  import opened Wrappers
  import opened Models
  import Text

  // ---------------------------------------------------------------------------
  // Numbers
  // ---------------------------------------------------------------------------

  /**
   * A number as decimal text writes it: `units / 10^places`. The value is
   * kept exactly; the binary rounding of a JavaScript number is not.
   */
  datatype Decimal = Decimal(units: int, places: nat)

  const Zero := Decimal(0, 0)

  /** The two decimals denote the same number. */
  predicate SameValue(a: Decimal, b: Decimal) {
    a.units * Text.Pow10(b.places) == b.units * Text.Pow10(a.places)
  }

  /** The position of the first decimal point, if there is one. */
  function PointIndex(b: string): (k: Option<nat>)
    ensures k.Some? ==> k.value < |b| && b[k.value] == '.' && forall i | 0 <= i < k.value :: b[i] != '.'
    ensures k.None? ==> forall i | 0 <= i < |b| :: b[i] != '.'
  {
    if b == [] then None
    else if b[0] == '.' then Some(0)
    else
      var rest := PointIndex(b[1..]);
      if rest.None? then None else Some(rest.value + 1)
  }

  /**
   * The value of decimal text: an optional sign, digits, and optionally a
   * point followed by more digits, with at least one digit in all (so
   * `5.` and `.5` are numbers and `.` is not). `None` for anything else.
   */
  function DecimalValue(t: string): Option<Decimal> {
    var negative := t != [] && t[0] == '-';
    var b := if t != [] && (t[0] == '-' || t[0] == '+') then t[1..] else t;
    match PointIndex(b)
    case None =>
      if b != [] && Text.AllDigits(b) then
        var v: int := Text.DigitsValue(b);
        Some(Decimal(if negative then -v else v, 0))
      else None
    case Some(k) =>
      var whole := b[..k];
      var fraction := b[k + 1..];
      if |b| >= 2 && Text.AllDigits(whole) && Text.AllDigits(fraction) then
        var v: int := Text.DigitsValue(whole) * Text.Pow10(|fraction|) + Text.DigitsValue(fraction);
        Some(Decimal(if negative then -v else v, |fraction|))
      else None
  }

  /** The characters a JavaScript numeric string can start with once trimmed: a digit, a sign, a point, or the `I` of `Infinity`. */
  predicate NumericStart(c: char) {
    Text.IsDigit(c) || c == '+' || c == '-' || c == '.' || c == 'I'
  }

  /**
   * `Number(s) || 0`: white space around the number is ignored; missing
   * and empty text give 0, and so does text that cannot start a number;
   * decimal text gives its value.
   */
  function NumberOrZero(s: Option<string>): (n: Decimal)
    ensures s.None? ==> n == Zero
    ensures s.Some? && Text.Trim(s.value) == [] ==> n == Zero
    ensures s.Some? && Text.Trim(s.value) != [] && !NumericStart(Text.Trim(s.value)[0]) ==> n == Zero
    ensures s.Some? && DecimalValue(Text.Trim(s.value)).Some? ==> SameValue(n, DecimalValue(Text.Trim(s.value)).value)
  {
    if s.None? then Zero
    else
      match DecimalValue(Text.Trim(s.value))
      case None => Zero
      case Some(d) =>
        SameAsZero(d);
        if d.units == 0 then Zero else d
  }

  /** Every decimal has its own value, and one with no units has the value of `Zero`. */
  lemma SameAsZero(d: Decimal)
    ensures SameValue(d, d)
    ensures d.units == 0 ==> SameValue(Zero, d)
  {
    assert Text.Pow10(0) == 1;
  }

  /** `String(n)` reads back through `NumberOrZero`. */
  lemma NumberOfWrittenCount(n: nat)
    ensures SameValue(NumberOrZero(Some(Text.NatToString(n))), Decimal(n, 0))
  {
    var t := Text.NatToString(n);
    Text.TrimOfDigits(t);
    Text.NatToStringRoundTrip(n);
    assert forall i | 0 <= i < |t| :: t[i] != '.' by {
      forall i | 0 <= i < |t| ensures t[i] != '.' {
        assert Text.IsDigit(t[i]);
      }
    }
    assert DecimalValue(t) == Some(Decimal(n, 0));
    SameAsZero(Decimal(n, 0));
  }

  /**
   * A price as typed in rupees, in paise: defined when it is not negative
   * and has no more than two places' worth of fraction.
   */
  function PriceInPaise(d: Decimal): (p: Option<Paise>)
    ensures p.Some? ==> p.value * Text.Pow10(d.places) == d.units * 100
    ensures d.units >= 0 && (d.units * 100) % Text.Pow10(d.places) == 0 ==> p.Some?
  {
    if d.units < 0 || (d.units * 100) % Text.Pow10(d.places) != 0 then None
    else Some((d.units * 100) / Text.Pow10(d.places))
  }

  /** Two digits for a paise count below 100. */
  function TwoDigits(p: nat): (t: string)
    requires p < 100
    ensures |t| == 2 && Text.AllDigits(t)
  {
    [Text.DigitChar(p / 10), Text.DigitChar(p % 10)]
  }

  /** Digits, a point and digits: the point is the first one. */
  lemma PointAfterDigits(whole: string, frac: string)
    requires Text.AllDigits(whole)
    ensures PointIndex(whole + "." + frac) == Some(|whole|)
  {
    var t := whole + "." + frac;
    assert t[|whole|] == '.';
    forall i | 0 <= i < |whole| ensures t[i] != '.' {
      assert t[i] == whole[i] && Text.IsDigit(whole[i]);
    }
  }

  lemma TwoDigitsValue(p: nat)
    requires p < 100
    ensures Text.DigitsValue(TwoDigits(p)) == p
  {
    var t := TwoDigits(p);
    assert t[..1][..0] == [];
    assert Text.DigitsValue(t[..1]) == p / 10;
  }

  /** `whole.frac` with two fraction digits reads as `whole * 100 + frac` hundredths. */
  lemma DecimalOfPrice(rupees: nat, paise: nat)
    requires paise < 100
    ensures DecimalValue(Text.NatToString(rupees) + "." + TwoDigits(paise)) == Some(Decimal(rupees * 100 + paise, 2))
  {
    var whole := Text.NatToString(rupees);
    var frac := TwoDigits(paise);
    var t := whole + "." + frac;
    assert t[0] == whole[0] && Text.IsDigit(t[0]);
    PointAfterDigits(whole, frac);
    assert t[..|whole|] == whole && t[|whole| + 1..] == frac;
    Text.NatToStringRoundTrip(rupees);
    TwoDigitsValue(paise);
    assert Text.Pow10(2) == 100;
  }

  /** Hundredths in paise: a price with two places is its units. */
  lemma HundredthsInPaise(u: nat)
    ensures PriceInPaise(Decimal(u, 2)) == Some(u)
    ensures PriceInPaise(Zero) == Some(0)
  {
    assert Text.Pow10(0) == 1 && Text.Pow10(1) == 10 && Text.Pow10(2) == 100;
    assert (u * 100) % 100 == 0 && (u * 100) / 100 == u;
  }

  /** A price typed as rupees, a point and two digits reads as that many paise. */
  lemma PriceTextInPaise(rupees: nat, paise: nat)
    requires paise < 100
    ensures
      var n := NumberOrZero(Some(Text.NatToString(rupees) + "." + TwoDigits(paise)));
      SameValue(n, Decimal(rupees * 100 + paise, 2)) && PriceInPaise(n) == Some(rupees * 100 + paise)
  {
    var whole := Text.NatToString(rupees);
    var frac := TwoDigits(paise);
    var t := whole + "." + frac;
    assert t[0] == whole[0] && t[|t| - 1] == frac[1];
    Text.DigitNotSpace(t[0]);
    Text.DigitNotSpace(t[|t| - 1]);
    Text.TrimKeeps(t);
    DecimalOfPrice(rupees, paise);
    var u := rupees * 100 + paise;
    var n := NumberOrZero(Some(t));
    assert n == if u == 0 then Zero else Decimal(u, 2);
    HundredthsInPaise(u);
  }

  // ---------------------------------------------------------------------------
  // The bulk parser
  // ---------------------------------------------------------------------------

  /** Why a batch is refused before any request: "Medicine name is required". */
  datatype BulkError = MissingName

  /** One parsed line. */
  datatype BulkEntry = BulkEntry(name: string, stock: Decimal, price: Decimal)

  /** `line.split(',').map(s => s.trim())`. */
  function Fields(line: string): (fields: seq<string>)
    ensures |fields| == |Text.Split(line, ',')| >= 1
  {
    var parts := Text.Split(line, ',');
    seq(|parts|, i requires 0 <= i < |parts| => Text.Trim(parts[i]))
  }

  /** `fields[i]` when present, as destructuring gives it (`undefined` when absent). */
  function Field(fields: seq<string>, i: nat): Option<string> {
    if i < |fields| then Some(fields[i]) else None
  }

  /**
   * One line's trimmed fields: the first three are name, stock and price;
   * an empty name fails the whole batch.
   */
  function ParseRow(fields: seq<string>): (r: Result<BulkEntry, BulkError>)
    requires |fields| >= 1
    ensures r.Failure? <==> fields[0] == []
    ensures r.Success? ==> r.value.name == fields[0]
    ensures r.Success? ==> r.value.stock == NumberOrZero(Field(fields, 1)) && r.value.price == NumberOrZero(Field(fields, 2))
  {
    if fields[0] == [] then Failure(MissingName)
    else Success(BulkEntry(fields[0], NumberOrZero(Field(fields, 1)), NumberOrZero(Field(fields, 2))))
  }

  /** The non-blank lines, in order. */
  function NonBlank(lines: seq<string>): (r: seq<string>)
    ensures forall l :: l in r <==> l in lines && !Text.Blank(l)
    ensures |r| <= |lines|
  {
    if lines == [] then []
    else
      var rest := NonBlank(lines[..|lines| - 1]);
      var last := lines[|lines| - 1];
      assert lines == lines[..|lines| - 1] + [last];
      if Text.Blank(last) then rest else rest + [last]
  }

  /**
   * `handleBulkAddMedicines`' parsing step: `None` for blank text (no
   * request), otherwise the entries of the non-blank lines or the error
   * that aborts the batch.
   */
  function ParseBulk(text: string): (r: Option<Result<seq<BulkEntry>, BulkError>>)
    ensures r.None? <==> Text.Blank(text)
    ensures r.Some? ==> r.value == ParseBatch(BulkRows(text))
  {
    if Text.Blank(text) then None else Some(ParseBatch(BulkRows(text)))
  }

  /** The trimmed fields of each non-blank line of the trimmed text. */
  function BulkRows(text: string): (rows: seq<seq<string>>)
    ensures |rows| == |BulkLines(text)|
    ensures forall i | 0 <= i < |rows| :: |rows[i]| >= 1
  {
    var lines := BulkLines(text);
    seq(|lines|, i requires 0 <= i < |lines| => Fields(lines[i]))
  }

  /** `lines.map(...)`: one entry per row, or the error of the first row without a name. */
  function ParseBatch(rows: seq<seq<string>>): (r: Result<seq<BulkEntry>, BulkError>)
    requires forall i | 0 <= i < |rows| :: |rows[i]| >= 1
    ensures r.Failure? <==> exists i | 0 <= i < |rows| :: rows[i][0] == []
    ensures r.Success? ==> |r.value| == |rows| && forall i | 0 <= i < |rows| :: ParseRow(rows[i]) == Success(r.value[i])
  {
    if rows == [] then Success([])
    else
      var tail := ParseBatch(rows[1..]);
      assert forall i | 1 <= i < |rows| :: rows[1..][i - 1] == rows[i];
      var head := ParseRow(rows[0]);
      if head.Failure? then Failure(head.error)
      else if tail.Failure? then tail
      else Success([head.value] + tail.value)
  }

  /** The non-blank lines of the trimmed text. */
  function BulkLines(text: string): seq<string> {
    NonBlank(Text.Split(Text.Trim(text), '\n'))
  }

  /** A non-blank text has at least one non-blank line, so a parsed batch is never empty. */
  lemma BulkNeverEmpty(text: string)
    requires !Text.Blank(text)
    ensures var r := ParseBulk(text);
      r.Some? && r.value.Success? ==> |r.value.value| >= 1
  {
    var t := Text.Trim(text);
    Text.TrimIdempotent(text);
    var parts := Text.Split(t, '\n');
    if NonBlank(parts) == [] {
      assert forall k | 0 <= k < |parts| :: Text.Blank(parts[k]) by {
        forall k | 0 <= k < |parts| ensures Text.Blank(parts[k]) {
          assert parts[k] in parts;
        }
      }
      JoinOfBlanks(parts);
    }
  }

  /** Joining blank lines with newlines (white space) gives blank text. */
  lemma {:induction false} JoinOfBlanks(parts: seq<string>)
    requires |parts| >= 1
    requires forall k | 0 <= k < |parts| :: Text.Blank(parts[k])
    ensures Text.Blank(Text.Join(parts, '\n'))
  {
    var head := parts[0];
    assert Text.Blank(head);
    Text.BlankIffAllSpace(head);
    var j := Text.Join(parts, '\n');
    if |parts| > 1 {
      var rest := Text.Join(parts[1..], '\n');
      assert forall k | 0 <= k < |parts[1..]| :: Text.Blank(parts[1..][k]) by {
        forall k | 0 <= k < |parts[1..]| ensures Text.Blank(parts[1..][k]) {
          assert parts[1..][k] == parts[k + 1];
        }
      }
      JoinOfBlanks(parts[1..]);
      Text.BlankIffAllSpace(rest);
      assert j == head + ['\n'] + rest;
      forall i | 0 <= i < |j| ensures Text.IsSpace(j[i]) {
        if i < |head| {
          assert j[i] == head[i];
        } else if i == |head| {
          assert j[i] == '\n';
        } else {
          assert j[i] == rest[i - |head| - 1];
        }
      }
    } else {
      assert j == head;
    }
    Text.BlankIffAllSpace(j);
  }

  /** The tallies of the bulk loop. */
  datatype Tally = Tally(succeeded: nat, failed: nat)

  function Successes(outcomes: seq<bool>): (k: nat)
    ensures k <= |outcomes|
  {
    if outcomes == [] then 0 else Successes(outcomes[..|outcomes| - 1]) + if outcomes[|outcomes| - 1] then 1 else 0
  }

  /**
   * The request loop: each entry either succeeds (its inventory row was
   * created) or fails, whatever went wrong; `added[i]` says which.
   */
  method BulkTally(entries: seq<BulkEntry>, added: seq<bool>) returns (t: Tally)
    ensures t.succeeded + t.failed == |entries|
    ensures t.succeeded == Successes(Outcomes(entries, added))
  {
    var succeeded := 0;
    var failed := 0;
    var i := 0;
    while i < |entries|
      invariant 0 <= i <= |entries|
      invariant succeeded + failed == i
      invariant succeeded == Successes(Outcomes(entries, added)[..i])
    {
      var ok := i < |added| && added[i];
      assert Outcomes(entries, added)[..i + 1] == Outcomes(entries, added)[..i] + [ok];
      if ok {
        succeeded := succeeded + 1;
      } else {
        failed := failed + 1;
      }
      i := i + 1;
    }
    assert Outcomes(entries, added)[..i] == Outcomes(entries, added);
    return Tally(succeeded, failed);
  }

  /** The outcome of each entry's requests; an entry with no recorded outcome failed. */
  function Outcomes(entries: seq<BulkEntry>, added: seq<bool>): (o: seq<bool>)
    ensures |o| == |entries|
  {
    seq(|entries|, i requires 0 <= i < |entries| => i < |added| && added[i])
  }

  // ---------------------------------------------------------------------------
  // Single add
  // ---------------------------------------------------------------------------

  /** A medicine as the catalogue listing returns it; `name` may be missing. */
  datatype CatalogueEntry = CatalogueEntry(id: MedicineId, name: Option<string>)

  /** What the typed name is compared as: trimmed and lower-cased. */
  function LookupKey(typed: string): string {
    Text.ToLower(Text.Trim(typed))
  }

  /** `m.name && m.name.toLowerCase() === key`. */
  predicate NameMatches(m: CatalogueEntry, key: string) {
    m.name.Some? && m.name.value != "" && Text.ToLower(m.name.value) == key
  }

  /** `list.find(...)` from position `from` on. */
  function FindFrom(list: seq<CatalogueEntry>, key: string, from: nat): (r: Option<nat>)
    requires from <= |list|
    ensures r.Some? ==> from <= r.value < |list| && NameMatches(list[r.value], key)
    ensures r.Some? ==> forall k | from <= k < r.value :: !NameMatches(list[k], key)
    ensures r.None? ==> forall k | from <= k < |list| :: !NameMatches(list[k], key)
    decreases |list| - from
  {
    if from == |list| then None
    else if NameMatches(list[from], key) then Some(from)
    else FindFrom(list, key, from + 1)
  }

  /** `list.find(...)`: the first entry whose name equals the trimmed name, ignoring case. */
  function FindByName(list: seq<CatalogueEntry>, typed: string): (r: Option<nat>)
    ensures r.Some? ==> r.value < |list| && NameMatches(list[r.value], LookupKey(typed))
    ensures r.Some? ==> forall k | 0 <= k < r.value :: !NameMatches(list[k], LookupKey(typed))
    ensures r.None? ==> forall k | 0 <= k < |list| :: !NameMatches(list[k], LookupKey(typed))
  {
    FindFrom(list, LookupKey(typed), 0)
  }

  /** What single add sends: the medicine (created or found) and the stock and price. */
  datatype AddRequest = AddRequest(medicine: MedicineId, stock: Decimal, price: Decimal)

  /**
   * `handleAddMedicine`: nothing for a blank name; the created medicine
   * when the create call succeeds, otherwise the first listed medicine of
   * that name (ignoring case); no inventory request when neither exists.
   */
  function AddMedicine(typed: string, stockText: string, priceText: string, created: Option<MedicineId>,
                       list: seq<CatalogueEntry>): (r: Option<AddRequest>)
    ensures Text.Blank(typed) ==> r.None?
    ensures !Text.Blank(typed) && created.Some? ==> r.Some? && r.value.medicine == created.value
    ensures !Text.Blank(typed) && created.None? ==>
      (r.Some? <==> exists k | 0 <= k < |list| :: NameMatches(list[k], LookupKey(typed)))
    ensures r.Some? && created.None? ==> exists k | 0 <= k < |list| :: list[k].id == r.value.medicine && NameMatches(list[k], LookupKey(typed))
    ensures r.Some? ==> r.value.stock == NumberOrZero(Some(stockText)) && r.value.price == NumberOrZero(Some(priceText))
  {
    if Text.Blank(typed) then None
    else
      var id := if created.Some? then Some(created.value)
                else match FindByName(list, typed) case Some(k) => Some(list[k].id) case None => None;
      if id.None? then None
      else Some(AddRequest(id.value, NumberOrZero(Some(stockText)), NumberOrZero(Some(priceText))))
  }

  // ---------------------------------------------------------------------------
  // Gating
  // ---------------------------------------------------------------------------

  /** The Accept All / Reject All controls. */
  predicate OffersDecision(status: string) { status == "pending_pharmacy_confirmation" }

  /** The controls appear for exactly the one status the server accepts decisions in. */
  lemma DecisionGatingMatchesServer(s: OrderStatus)
    ensures OffersDecision(OrderStatusName(s)) <==> s == PendingPharmacyConfirmation
  {
  }
}
