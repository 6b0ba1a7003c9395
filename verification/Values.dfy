/** Column values, rows and the field-level diff that every audit entry is built from
    (the helpers at the top of sync_engine.py). */
module Values {

  /** A column value.  `Stamp` is a datetime and is identified with its ISO text; `Key` is a
      UUID column; `Other` stands for every other type and is identified with its `str()`. */
  datatype Value =
    | Null
    | Text(s: string)
    | Num(n: int)
    | Flag(b: bool)
    | Stamp(iso: string)
    | Key(id: nat)
    | Other(repr: string)

  type Column = string

  /** A row.  A column that is absent from the map reads as NULL. */
  type Row = map<Column, Value>

  /** `getattr(row, c, None)` and `dict.get(c)`. */
  function Get(row: Row, c: Column): Value {
    if c in row then row[c] else Null
  }

  predicate EndsWith(s: string, suffix: string) {
    |suffix| <= |s| && s[|s| - |suffix|..] == suffix
  }

  /** Columns that must never reach an audit entry. */
  predicate Sensitive(c: Column) {
    EndsWith(c, "_enc") || EndsWith(c, "_password") || EndsWith(c, "_key") || EndsWith(c, "_secret")
  }

  function Digits(n: nat): string {
    if n < 10 then ["0123456789"[n]] else Digits(n / 10) + ["0123456789"[n % 10]]
  }

  function Decimal(n: int): string {
    if n < 0 then "-" + Digits(-n) else Digits(n)
  }

  /** `str(datetime)` is the ISO text with a blank for the `T`. */
  function Spaced(iso: string): string {
    seq(|iso|, i requires 0 <= i < |iso| => if iso[i] == 'T' then ' ' else iso[i])
  }

  function SafeStr(v: Value): string {
    match v
    case Null => ""
    case Text(s) => s
    case Num(n) => Decimal(n)
    case Flag(b) => if b then "True" else "False"
    case Stamp(iso) => Spaced(iso)
    case Key(id) => Decimal(id)
    case Other(repr) => repr
  }

  function JsonSafe(v: Value): Value {
    match v
    case Null | Text(_) | Num(_) | Flag(_) => v
    case Stamp(iso) => Text(iso)
    case Key(id) => Text(Decimal(id))
    case Other(repr) => Text(repr)
  }

  /** Both `_row_to_dict` and `_safe_dict`: the visible columns, made JSON safe. */
  function SafeDict(row: Row): Row {
    map c | c in row && !Sensitive(c) :: JsonSafe(row[c])
  }

  // ---------- which values a printed comparison tells apart ----------

  /** Values of one type, where a datetime's ISO text holds no blank. */
  predicate SameType(v: Value, w: Value) {
    || (v.Null? && w.Null?) || (v.Text? && w.Text?) || (v.Num? && w.Num?) || (v.Flag? && w.Flag?)
    || (v.Key? && w.Key?) || (v.Other? && w.Other?)
    || (v.Stamp? && w.Stamp? && ' ' !in v.iso && ' ' !in w.iso)
  }

  predicate IsNumeric(v: Value) {
    v.Num? || v.Flag? || v.Key?
  }

  lemma {:induction false} DigitsAreDigits(n: nat)
    ensures Digits(n) != "" && forall c :: c in Digits(n) ==> c in "0123456789"
  {
    if n >= 10 {
      DigitsAreDigits(n / 10);
    }
  }

  lemma DigitTellsApart(a: nat, b: nat)
    requires a < 10 && b < 10 && "0123456789"[a] == "0123456789"[b]
    ensures a == b
  {
  }

  lemma {:induction false} DigitsTellApart(a: nat, b: nat)
    requires Digits(a) == Digits(b)
    ensures a == b
  {
    DigitsAreDigits(a / 10);
    DigitsAreDigits(b / 10);
    DigitTellsApart(a % 10, b % 10) by {
      assert Digits(a)[|Digits(a)| - 1] == "0123456789"[a % 10];
      assert Digits(b)[|Digits(b)| - 1] == "0123456789"[b % 10];
    }
    if a >= 10 && b >= 10 {
      assert Digits(a)[..|Digits(a)| - 1] == Digits(a / 10) && Digits(b)[..|Digits(b)| - 1] == Digits(b / 10);
      DigitsTellApart(a / 10, b / 10);
    }
  }

  lemma NoDigitIsMinus(n: nat)
    ensures Digits(n) != "" && Digits(n)[0] != '-'
  {
    DigitsAreDigits(n);
    assert Digits(n)[0] in "0123456789";
  }

  lemma DecimalTellsApart(a: int, b: int)
    ensures Decimal(a) != "" && (Decimal(a) == Decimal(b) ==> a == b)
  {
    hide Digits;
    NoDigitIsMinus(if a < 0 then -a else a);
    NoDigitIsMinus(if b < 0 then -b else b);
    if Decimal(a) == Decimal(b) {
      if a < 0 {
        assert Decimal(a)[1..] == Digits(-a) && Decimal(b)[1..] == Digits(-b);
        DigitsTellApart(-a, -b);
      } else {
        DigitsTellApart(a, b);
      }
    }
  }

  lemma SpacedTellsApart(a: string, b: string)
    requires ' ' !in a && ' ' !in b && Spaced(a) == Spaced(b)
    ensures a == b
  {
    assert |a| == |Spaced(a)| == |b|;
    forall i | 0 <= i < |a| ensures a[i] == b[i] {
      assert a[i] in a && b[i] in b && Spaced(a)[i] == Spaced(b)[i];
    }
  }

  /** Printing tells values of one type apart, and a number, a flag or an id from NULL and the empty text. */
  lemma PrintsApart(v: Value, w: Value)
    ensures SameType(v, w) ==> (SafeStr(v) == SafeStr(w) <==> v == w)
    ensures IsNumeric(v) ==> SafeStr(v) != ""
    ensures v.Null? ==> SafeStr(v) == ""
  {
    match v {
      case Num(n) => DecimalTellsApart(n, if w.Num? then w.n else 0);
      case Key(id) => DecimalTellsApart(id, if w.Key? then w.id else 0);
      case Stamp(iso) => if SameType(v, w) && SafeStr(v) == SafeStr(w) { SpacedTellsApart(iso, w.iso); }
      case _ =>
    }
  }

  /** Reading digits back, and what the other values print as: a number and an id their decimal, a flag its
      Python name, a datetime its ISO text with a blank for each `T`. */
  function Read(digits: string): int {
    if digits == "" then 0
    else 10 * Read(digits[..|digits| - 1]) + (digits[|digits| - 1] as int - '0' as int)
  }

  lemma {:induction false} DigitsReadBack(n: nat)
    ensures Read(Digits(n)) == n
  {
    assert forall d :: 0 <= d < 10 ==> "0123456789"[d] as int - '0' as int == d;
    if n < 10 {
      assert Digits(n)[..0] == "";
    } else {
      DigitsReadBack(n / 10);
      assert Digits(n)[..|Digits(n)| - 1] == Digits(n / 10);
    }
  }

  lemma PrintsAs(v: Value)
    ensures v.Num? && v.n >= 0 ==> Read(SafeStr(v)) == v.n && Digits(v.n) == SafeStr(v)
    ensures v.Num? && v.n < 0 ==> SafeStr(v) == "-" + SafeStr(Num(-v.n))
    ensures v.Key? ==> Read(SafeStr(v)) == v.id && JsonSafe(v) == Text(SafeStr(v))
    ensures v.Flag? ==> SafeStr(v) == if v.b then "True" else "False"
    ensures v.Text? ==> SafeStr(v) == v.s
    ensures v.Other? ==> SafeStr(v) == v.repr && JsonSafe(v) == Text(v.repr)
    ensures v.Stamp? ==> JsonSafe(v) == Text(v.iso) && |SafeStr(v)| == |v.iso|
    ensures v.Stamp? ==> forall i :: 0 <= i < |v.iso| ==> SafeStr(v)[i] == if v.iso[i] == 'T' then ' ' else v.iso[i]
  {
    if v.Num? && v.n >= 0 { DigitsReadBack(v.n); }
    if v.Key? { DigitsReadBack(v.id); }
  }

  /** Coercing to JSON keeps numbers, texts and flags, and tells all values of one type apart. */
  lemma JsonTellsApart(v: Value, w: Value)
    ensures v.Null? || v.Text? || v.Num? || v.Flag? ==> JsonSafe(v) == v
    ensures JsonSafe(v).Null? <==> v.Null?
    ensures SameType(v, w) ==> SameType(JsonSafe(v), JsonSafe(w)) && (JsonSafe(v) == JsonSafe(w) <==> v == w)
  {
    if v.Key? && w.Key? {
      DecimalTellsApart(v.id, w.id);
    }
  }

  /** The visible columns are those without one of the four suffixes. */
  lemma VisibleColumns(c: Column)
    ensures Sensitive(c) <==>
      || (|c| >= 4 && (c[|c| - 4..] == "_enc" || c[|c| - 4..] == "_key"))
      || (|c| >= 9 && c[|c| - 9..] == "_password")
      || (|c| >= 7 && c[|c| - 7..] == "_secret")
  {
  }

  /** Two rows that agree on every visible column, compared the way the diff compares them. */
  ghost predicate SameVisible(a: Row, b: Row) {
    forall c :: !Sensitive(c) ==> SafeStr(Get(a, c)) == SafeStr(Get(b, c))
  }

  /** The same, for a JSON dictionary `d` against the row it describes. */
  ghost predicate Describes(d: Row, row: Row) {
    forall c :: !Sensitive(c) ==> SafeStr(Get(d, c)) == SafeStr(JsonSafe(Get(row, c)))
  }
}

/** `compute_diff` and the two ways of replaying what it returns. */
module Diffs {
  import opened Values

  datatype Change = Change(before: Value, after: Value)

  type Diff = map<Column, Change>

  /** What a diff of two dictionaries has to be. */
  function DiffOf(before: Row, after: Row): Diff {
    map c | c in before.Keys + after.Keys && !Sensitive(c) && SafeStr(Get(before, c)) != SafeStr(Get(after, c))
      :: Change(Get(before, c), Get(after, c))
  }

  function Afters(d: Diff): Row {
    map c | c in d :: d[c].after
  }

  function Befores(d: Diff): Row {
    map c | c in d :: d[c].before
  }

  /** `compute_diff`.  Where both values have one type, a visible column is in the diff exactly when they
      differ; a number, flag or id that replaces NULL always is. */
  method ComputeDiff(before: Row, after: Row) returns (diff: Diff)
    ensures diff == DiffOf(before, after)
    ensures forall c :: c in diff ==>
      diff[c] == Change(Get(before, c), Get(after, c)) && diff[c].before != diff[c].after
    ensures forall c :: !Sensitive(c) && SameType(Get(before, c), Get(after, c)) ==>
      (c in diff <==> Get(before, c) != Get(after, c))
    ensures forall c :: !Sensitive(c) && Get(before, c).Null? && IsNumeric(Get(after, c)) ==> c in diff
    ensures forall c :: !Sensitive(c) && IsNumeric(Get(before, c)) && Get(after, c).Null? ==> c in diff
  {
    DiffTellsApart(before, after);
    diff := map[];
    var todo := before.Keys + after.Keys;
    while todo != {}
      invariant todo <= before.Keys + after.Keys
      invariant diff.Keys <= DiffOf(before, after).Keys
      invariant forall c :: c in diff ==> diff[c] == DiffOf(before, after)[c]
      invariant forall c :: c in DiffOf(before, after) ==> c in diff || c in todo
      decreases todo
    {
      var c :| c in todo;
      todo := todo - {c};
      if Sensitive(c) {
        continue;
      }
      var oldVal, newVal := Get(before, c), Get(after, c);
      if SafeStr(oldVal) != SafeStr(newVal) {
        diff := diff[c := Change(oldVal, newVal)];
      }
    }
  }

  lemma DiffTellsApart(before: Row, after: Row)
    ensures forall c :: !Sensitive(c) && SameType(Get(before, c), Get(after, c)) ==>
      (c in DiffOf(before, after) <==> Get(before, c) != Get(after, c))
    ensures forall c :: !Sensitive(c) && Get(before, c).Null? && IsNumeric(Get(after, c)) ==> c in DiffOf(before, after)
    ensures forall c :: !Sensitive(c) && IsNumeric(Get(before, c)) && Get(after, c).Null? ==> c in DiffOf(before, after)
  {
    hide SafeStr, Sensitive;
    forall c
      ensures SameType(Get(before, c), Get(after, c)) ==>
        (SafeStr(Get(before, c)) == SafeStr(Get(after, c)) <==> Get(before, c) == Get(after, c))
      ensures Get(before, c).Null? && IsNumeric(Get(after, c)) ==> SafeStr(Get(before, c)) != SafeStr(Get(after, c))
      ensures IsNumeric(Get(before, c)) && Get(after, c).Null? ==> SafeStr(Get(before, c)) != SafeStr(Get(after, c))
    {
      PrintsApart(Get(before, c), Get(after, c));
      PrintsApart(Get(after, c), Get(before, c));
    }
  }

  /** Patching forward with "after" gives the new row, patching back with "before" the old one,
      and no patch that gets from one to the other mentions fewer columns. */
  lemma RoundTrip(before: Row, after: Row)
    ensures SameVisible(before + Afters(DiffOf(before, after)), after)
    ensures SameVisible(after + Befores(DiffOf(before, after)), before)
    ensures forall patch: Row :: SameVisible(before + patch, after) ==> DiffOf(before, after).Keys <= patch.Keys
    ensures forall patch: Row :: SameVisible(after + patch, before) ==> DiffOf(before, after).Keys <= patch.Keys
  {
    hide SafeStr, Sensitive;
    var d := DiffOf(before, after);
    forall patch: Row | SameVisible(before + patch, after)
      ensures d.Keys <= patch.Keys
    {
      forall c | c in d ensures c in patch {
        assert Get(before + patch, c) == if c in patch then patch[c] else Get(before, c);
      }
    }
    forall patch: Row | SameVisible(after + patch, before)
      ensures d.Keys <= patch.Keys
    {
      forall c | c in d ensures c in patch {
        assert Get(after + patch, c) == if c in patch then patch[c] else Get(after, c);
      }
    }
  }

  /** Where the two rows hold values of one type, the patched row holds the very value. */
  lemma RoundTripExact(before: Row, after: Row, c: Column)
    requires !Sensitive(c) && SameType(Get(before, c), Get(after, c))
    ensures Get(before + Afters(DiffOf(before, after)), c) == Get(after, c)
    ensures Get(after + Befores(DiffOf(before, after)), c) == Get(before, c)
  {
    hide SafeStr, Sensitive, SameType;
    PrintsApart(Get(before, c), Get(after, c));
  }
}
