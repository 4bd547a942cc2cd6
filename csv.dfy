/** The row format shared by the habit and task files: the quote-aware field
    splitter parse_csv_line (a subset of section 2 of RFC 4180 without doubled
    quotes), the end-of-line cut made before splitting, and the decimal
    conversions printf("%d") and atoi perform on the numeric fields. */
module Csv {

  /** The first index of c in s, or |s| when c does not occur. */
  function IndexOf(s: string, c: char): (k: nat)
    ensures k <= |s|
    ensures forall i :: 0 <= i < k ==> s[i] != c
    ensures k < |s| ==> s[k] == c
  {
    IndexFrom(s, c, 0)
  }

  /** The first index at or after i of c in s, or |s| when c does not occur there. */
  function IndexFrom(s: string, c: char, i: nat): (k: nat)
    requires i <= |s|
    ensures i <= k <= |s|
    ensures forall j :: i <= j < k ==> s[j] != c
    ensures k < |s| ==> s[k] == c
    decreases |s| - i
  {
    if i == |s| then i
    else if s[i] == c then i
    else IndexFrom(s, c, i + 1)
  }

  /** An index with no c between i and it, and c or the end of s there, is the first c from i. */
  lemma IndexFromIs(s: string, c: char, i: nat, k: nat)
    requires i <= k <= |s|
    requires forall j :: i <= j < k ==> s[j] != c
    requires k < |s| ==> s[k] == c
    ensures IndexFrom(s, c, i) == k
  {
  }

  /** Past one comma at q, if there is one there. */
  function AfterComma(line: string, q: nat): (r: nat)
    requires q <= |line|
    ensures q <= r <= |line| && (r == q + 1 <==> q < |line| && line[q] == ',')
  {
    if q < |line| && line[q] == ',' then q + 1 else q
  }

  /** The characters of line from start up to stop, copied one at a time. */
  function Slice(line: string, start: nat, stop: nat): (r: string)
    requires start <= stop <= |line|
    ensures |r| == stop - start
    ensures forall j :: start <= j < stop ==> line[j] == r[j - start]
    decreases stop - start
  {
    if start == stop then [] else Slice(line, start, stop - 1) + [line[stop - 1]]
  }

  /** The field that starts at index p of a line: its text runs from start
      to stop and the next field starts at next. A field opening with a quote
      runs to the next quote, which is dropped; otherwise it runs to the next
      comma. One comma after the field is consumed. */
  function FieldBounds(line: string, p: nat): (r: (nat, nat, nat))
    requires p < |line|
    ensures r.0 <= r.1 <= |line| && p < r.2 <= |line|
  {
    if line[p] == '"' then
      var k := IndexFrom(line, '"', p + 1);
      (p + 1, k, AfterComma(line, if k < |line| then k + 1 else k))
    else
      var k := IndexFrom(line, ',', p);
      (p, k, AfterComma(line, k))
  }

  /** The fields of a line from index p on, at most max of them. */
  function SplitFrom(line: string, p: nat, max: nat): (r: seq<string>)
    requires p <= |line|
    ensures |r| <= max
    decreases |line| - p
  {
    if p == |line| || max == 0 then []
    else
      var b := FieldBounds(line, p);
      [Slice(line, b.0, b.1)] + SplitFrom(line, b.2, max - 1)
  }

  /** parse_csv_line: the fields of a line, at most max of them. */
  function SplitFields(line: string, max: nat): (r: seq<string>)
    ensures |r| <= max
  {
    SplitFrom(line, 0, max)
  }

  /** A field text the splitter returns unchanged between quotes. */
  predicate Quotable(a: string) {
    forall i :: 0 <= i < |a| ==> a[i] != '"'
  }

  /** A field text the splitter returns unchanged without quotes. */
  predicate Bare(a: string) {
    |a| > 0 && a[0] != '"' && forall i :: 0 <= i < |a| ==> a[i] != ','
  }

  /** A field written as "%s", by the savers. */
  function Quoted(a: string): string {
    "\"" + a + "\","
  }

  /** The characters of a stand in line from index p on. */
  predicate At(line: string, p: nat, a: string) {
    p + |a| <= |line| && forall j :: p <= j < p + |a| ==> line[j] == a[j - p]
  }

  /** A quoted field at p is read as its text, and the next field starts after its comma. */
  lemma QuotedAt(line: string, p: nat, a: string, next: nat, max: nat)
    requires Quotable(a) && At(line, p, Quoted(a)) && next == p + |a| + 3 && max > 0
    ensures SplitFrom(line, p, max) == [a] + SplitFrom(line, next, max - 1)
  {
    QuotedBounds(line, p, a);
    SliceIs(line, p + 1, a);
    SplitStep(line, p, p + 1, p + |a| + 1, next, a, max);
  }

  /** One field of SplitFrom, once its bounds and its text are known. */
  lemma SplitStep(line: string, p: nat, start: nat, stop: nat, next: nat, a: string, max: nat)
    requires p < |line| && max > 0 && start <= stop <= |line|
    requires FieldBounds(line, p) == (start, stop, next) && Slice(line, start, stop) == a
    ensures SplitFrom(line, p, max) == [a] + SplitFrom(line, next, max - 1)
  {
  }

  lemma QuotedBounds(line: string, p: nat, a: string)
    requires Quotable(a) && At(line, p, Quoted(a))
    ensures At(line, p + 1, a)
    ensures FieldBounds(line, p) == (p + 1, p + |a| + 1, p + |a| + 3)
  {
    var q := Quoted(a);
    var k := p + |a| + 1;
    assert line[p] == q[0] == '"';
    assert line[k] == q[|a| + 1] == '"';
    assert line[k + 1] == q[|a| + 2] == ',';
    forall j | p + 1 <= j < p + 1 + |a|
      ensures line[j] == a[j - (p + 1)]
    {
      assert line[j] == q[j - p];
    }
    forall j | p + 1 <= j < k
      ensures line[j] != '"'
    {
      assert line[j] == a[j - p - 1];
    }
    IndexFromIs(line, '"', p + 1, k);
  }

  /** Text standing at start is what Slice copies from there. */
  lemma SliceIs(line: string, start: nat, a: string)
    requires At(line, start, a)
    ensures Slice(line, start, start + |a|) == a
  {
    var r := Slice(line, start, start + |a|);
    forall i | 0 <= i < |a|
      ensures r[i] == a[i]
    {
      assert line[start + i] == a[i];
    }
  }

  /** A bare field followed by a comma at p is read as its text, and the next field starts after the comma. */
  lemma BareAt(line: string, p: nat, a: string, next: nat, max: nat)
    requires Bare(a) && At(line, p, a + ",") && next == p + |a| + 1 && max > 0
    ensures SplitFrom(line, p, max) == [a] + SplitFrom(line, next, max - 1)
  {
    AtSplit(line, p, a, ",");
    assert line[p + |a|] == (a + ",")[|a|];
    BareBounds(line, p, a);
    assert AfterComma(line, p + |a|) == p + |a| + 1;
    SliceIs(line, p, a);
    SplitStep(line, p, p, p + |a|, next, a, max);
  }

  /** A bare field ending the line at p is read as its text and is the last field. */
  lemma BareEnd(line: string, p: nat, a: string, max: nat)
    requires Bare(a) && max > 0 && At(line, p, a) && p + |a| == |line|
    ensures SplitFrom(line, p, max) == [a]
  {
    BareBounds(line, p, a);
    SliceIs(line, p, a);
    SplitStep(line, p, p, p + |a|, |line|, a, max);
  }

  /** A bare field at p ends where its text does, at a comma or the end of the line. */
  lemma BareBounds(line: string, p: nat, a: string)
    requires Bare(a) && At(line, p, a)
    requires p + |a| < |line| ==> line[p + |a|] == ','
    ensures FieldBounds(line, p) == (p, p + |a|, AfterComma(line, p + |a|))
  {
    assert line[p] == a[0];
    forall j | p <= j < p + |a|
      ensures line[j] != ','
    {
      assert line[j] == a[j - p];
    }
    IndexFromIs(line, ',', p, p + |a|);
  }

  /** The two halves of a concatenation standing at p stand at p and after the first. */
  lemma AtSplit(line: string, p: nat, x: string, y: string)
    requires At(line, p, x + y)
    ensures At(line, p, x) && At(line, p + |x|, y)
  {
    forall j | p <= j < p + |x|
      ensures line[j] == x[j - p]
    {
      assert (x + y)[j - p] == x[j - p];
    }
    forall j | p + |x| <= j < p + |x| + |y|
      ensures line[j] == y[j - (p + |x|)]
    {
      assert (x + y)[j - p] == y[j - p - |x|];
    }
  }

  /** The halves of a concatenation stand in it at 0 and after the first. */
  lemma AtAppend(x: string, y: string)
    ensures At(x + y, 0, x) && At(x + y, |x|, y)
  {
  }

  /** parse_csv_line over an index into the line: fields are scanned one at
      a time until the line or the field budget runs out. */
  method ParseCsvLine(line: string, maxFields: nat) returns (fields: seq<string>)
    ensures fields == SplitFields(line, maxFields)
  {
    fields := [];
    var p := 0;
    while p < |line| && |fields| < maxFields
      invariant 0 <= p <= |line| && |fields| <= maxFields
      invariant fields + SplitFrom(line, p, maxFields - |fields|) == SplitFields(line, maxFields)
      decreases |line| - p
    {
      var start, stop, next := ScanField(line, p);
      var field := CopyField(line, start, stop);
      SplitAdvance(line, p, fields, maxFields);
      fields := fields + [field];
      p := next;
    }
    SplitDone(line, p, fields, maxFields);
  }

  lemma SplitAdvance(line: string, p: nat, fields: seq<string>, max: nat)
    requires p < |line| && |fields| < max
    ensures var b := FieldBounds(line, p);
      (fields + [Slice(line, b.0, b.1)]) + SplitFrom(line, b.2, max - |fields + [Slice(line, b.0, b.1)]|)
      == fields + SplitFrom(line, p, max - |fields|)
  {
    var b := FieldBounds(line, p);
    var x := Slice(line, b.0, b.1);
    var tail := SplitFrom(line, b.2, max - |fields| - 1);
    assert SplitFrom(line, p, max - |fields|) == [x] + tail;
    assert (fields + [x]) + tail == fields + ([x] + tail);
  }

  lemma SplitDone(line: string, p: nat, fields: seq<string>, max: nat)
    requires p <= |line| && |fields| <= max && (p == |line| || |fields| == max)
    ensures fields + SplitFrom(line, p, max - |fields|) == fields
  {
  }

  /** One step of parse_csv_line from index p: the field runs from start to
      stop and the next field starts at next. */
  method ScanField(line: string, p: nat) returns (start: nat, stop: nat, next: nat)
    requires p < |line|
    ensures (start, stop, next) == FieldBounds(line, p)
  {
    var q := p;
    if line[q] == '"' {
      q := q + 1;
      start := q;
      while q < |line| && line[q] != '"'
        invariant start <= q <= |line|
        invariant forall i :: start <= i < q ==> line[i] != '"'
      {
        q := q + 1;
      }
      stop := q;
      IndexFromIs(line, '"', start, stop);
      if q < |line| {
        q := q + 1;
      }
    } else {
      start := q;
      while q < |line| && line[q] != ','
        invariant start <= q <= |line|
        invariant forall i :: start <= i < q ==> line[i] != ','
      {
        q := q + 1;
      }
      stop := q;
      IndexFromIs(line, ',', start, stop);
    }
    next := q;
    if q < |line| && line[q] == ',' {
      next := q + 1;
    }
  }

  /** The field text, copied character by character. */
  method CopyField(line: string, start: nat, stop: nat) returns (field: string)
    requires start <= stop <= |line|
    ensures field == Slice(line, start, stop)
  {
    field := [];
    var i := start;
    while i < stop
      invariant start <= i <= stop
      invariant field == Slice(line, start, i)
    {
      field := field + [line[i]];
      i := i + 1;
    }
  }

  /** A C string ends at its first NUL; the loaders also cut it at the first CR or LF. */
  predicate IsLineEnd(c: char) {
    c == '\0' || c == '\r' || c == '\n'
  }

  /** line[strcspn(line, "\r\n")] = 0: the line up to its first CR, LF or NUL. */
  function Chomp(line: string): (r: string)
    ensures |r| <= |line| && r == line[..|r|]
    ensures forall i :: 0 <= i < |r| ==> !IsLineEnd(r[i])
    ensures |r| < |line| ==> IsLineEnd(line[|r|])
  {
    if line == [] || IsLineEnd(line[0]) then [] else [line[0]] + Chomp(line[1..])
  }

  predicate NoLineEnd(s: string) {
    forall i :: 0 <= i < |s| ==> !IsLineEnd(s[i])
  }

  /** A line written with a trailing newline reads back without it. */
  lemma {:induction false} ChompLine(row: string)
    requires NoLineEnd(row)
    ensures Chomp(row + "\n") == row
  {
    if row != [] {
      assert (row + "\n")[1..] == row[1..] + "\n";
      ChompLine(row[1..]);
    }
  }

  /** Text the savers can write between quotes and the loaders read back. */
  predicate Plain(a: string) {
    Quotable(a) && NoLineEnd(a)
  }

  // ---------------------------------------------------------------------------
  // Decimal numbers

  predicate IsDigit(c: char) {
    '0' <= c <= '9'
  }

  function DigitValue(c: char): nat
    requires IsDigit(c)
  {
    c as int - '0' as int
  }

  function DigitChar(d: nat): (c: char)
    requires d < 10
    ensures IsDigit(c) && DigitValue(c) == d
  {
    ('0' as int + d) as char
  }

  /** The number of leading digits of s. */
  function LeadingDigits(s: string): (n: nat)
    ensures n <= |s|
    ensures forall i :: 0 <= i < n ==> IsDigit(s[i])
    ensures n < |s| ==> !IsDigit(s[n])
  {
    if s == [] || !IsDigit(s[0]) then 0 else 1 + LeadingDigits(s[1..])
  }

  /** The value of a string of digits. */
  function DigitsValue(d: string): nat
    requires forall i :: 0 <= i < |d| ==> IsDigit(d[i])
  {
    if d == [] then 0 else 10 * DigitsValue(d[..|d| - 1]) + DigitValue(d[|d| - 1])
  }

  /** atoi on a sign and digits: the value of the leading digits after an
      optional sign; 0 when there are none. */
  function Atoi(s: string): (r: int)
    ensures |s| == 0 ==> r == 0
    ensures |s| > 0 && s[0] == '-' ==> r <= 0
    ensures !(|s| > 0 && s[0] == '-') ==> r >= 0
  {
    if |s| > 0 && (s[0] == '-' || s[0] == '+') then
      var d := s[1..][..LeadingDigits(s[1..])];
      var v: int := DigitsValue(d);
      if s[0] == '-' then -v else v
    else DigitsValue(s[..LeadingDigits(s)])
  }

  /** printf("%u") of a non-negative number: its decimal digits without leading zeros. */
  function NatToString(n: nat): (r: string)
    ensures |r| > 0 && forall i :: 0 <= i < |r| ==> IsDigit(r[i])
    ensures DigitsValue(r) == n
  {
    if n < 10 then [DigitChar(n)]
    else
      var r := NatToString(n / 10) + [DigitChar(n % 10)];
      assert r[..|r| - 1] == NatToString(n / 10);
      r
  }

  /** printf("%d"). */
  function IntToString(i: int): (r: string)
    ensures forall k :: 0 <= k < |r| ==> r[k] == '-' || IsDigit(r[k])
  {
    if i < 0 then "-" + NatToString(-i) else NatToString(i)
  }

  /** atoi reads back what printf("%d") writes. */
  lemma AtoiIntToString(i: int)
    ensures Atoi(IntToString(i)) == i
    ensures Bare(IntToString(i))
  {
    var n := if i < 0 then -i else i;
    var d := NatToString(n);
    assert LeadingDigits(d) == |d| by {
      LeadingAllDigits(d);
    }
    assert d[..|d|] == d;
    if i < 0 {
      assert IntToString(i)[1..] == d;
    }
  }

  lemma {:induction false} LeadingAllDigits(d: string)
    requires forall i :: 0 <= i < |d| ==> IsDigit(d[i])
    ensures LeadingDigits(d) == |d|
  {
    if d != [] {
      LeadingAllDigits(d[1..]);
    }
  }

  /** (int)b as printf("%d") writes it. */
  function BoolToString(b: bool): (r: string)
    ensures forall k :: 0 <= k < |r| ==> IsDigit(r[k])
  {
    if b then "1" else "0"
  }

  /** atoi(...) != 0 reads back the flag. */
  lemma AtoiBoolToString(b: bool)
    ensures (Atoi(BoolToString(b)) != 0) == b
    ensures Bare(BoolToString(b))
  {
    var t := BoolToString(b);
    assert LeadingDigits(t) == 1 by {
      assert t[1..] == [];
    }
    assert t[..1] == t;
    assert t[..|t| - 1] == [];
    assert DigitsValue(t) == DigitValue(t[0]);
  }

  // ---------------------------------------------------------------------------
  // Whole rows

  /** A row of two quoted fields and two bare ones: "a","b",c,d. */
  function Line4(a: string, b: string, c: string, d: string): string {
    Quoted(a) + (Quoted(b) + ((c + ",") + d))
  }

  /** A row of two quoted fields and one bare one: "a","b",c. */
  function Line3(a: string, b: string, c: string): string {
    Quoted(a) + (Quoted(b) + c)
  }

  lemma Line4Fields(a: string, b: string, c: string, d: string, max: nat)
    requires Quotable(a) && Quotable(b) && Bare(c) && Bare(d) && max >= 4
    ensures SplitFields(Line4(a, b, c, d), max) == [a, b, c, d]
  {
    var line := Line4(a, b, c, d);
    var p1 := |a| + 3;
    var p2 := p1 + |b| + 3;
    var p3 := p2 + |c| + 1;
    AtAppend(Quoted(a), Quoted(b) + ((c + ",") + d));
    AtSplit(line, p1, Quoted(b), (c + ",") + d);
    AtSplit(line, p2, c + ",", d);
    BareEnd(line, p3, d, max - 1 - 1 - 1);
    BareAt(line, p2, c, p3, max - 1 - 1);
    QuotedAt(line, p1, b, p2, max - 1);
    QuotedAt(line, 0, a, p1, max);
    Chain4(SplitFrom(line, 0, max), SplitFrom(line, p1, max - 1), SplitFrom(line, p2, max - 1 - 1), SplitFrom(line, p3, max - 1 - 1 - 1), a, b, c, d);
  }

  lemma Chain4(s0: seq<string>, s1: seq<string>, s2: seq<string>, s3: seq<string>, a: string, b: string, c: string, d: string)
    requires s0 == [a] + s1 && s1 == [b] + s2 && s2 == [c] + s3 && s3 == [d]
    ensures s0 == [a, b, c, d]
  {
  }

  lemma Chain3(s0: seq<string>, s1: seq<string>, s2: seq<string>, a: string, b: string, c: string)
    requires s0 == [a] + s1 && s1 == [b] + s2 && s2 == [c]
    ensures s0 == [a, b, c]
  {
  }

  lemma Line3Fields(a: string, b: string, c: string, max: nat)
    requires Quotable(a) && Quotable(b) && Bare(c) && max >= 3
    ensures SplitFields(Line3(a, b, c), max) == [a, b, c]
  {
    var line := Line3(a, b, c);
    var p1 := |a| + 3;
    var p2 := p1 + |b| + 3;
    AtAppend(Quoted(a), Quoted(b) + c);
    AtSplit(line, p1, Quoted(b), c);
    BareEnd(line, p2, c, max - 1 - 1);
    QuotedAt(line, p1, b, p2, max - 1);
    QuotedAt(line, 0, a, p1, max);
    Chain3(SplitFrom(line, 0, max), SplitFrom(line, p1, max - 1), SplitFrom(line, p2, max - 1 - 1), a, b, c);
  }

  /** Characters of a number or of a field separator. */
  predicate NumberChars(s: string) {
    forall k :: 0 <= k < |s| ==> s[k] == '-' || s[k] == ',' || IsDigit(s[k])
  }

  lemma NumberCharsConcat(s: string, t: string)
    requires NumberChars(s) && NumberChars(t)
    ensures NumberChars(s + t)
  {
    var st := s + t;
    forall k | 0 <= k < |st|
      ensures st[k] == '-' || st[k] == ',' || IsDigit(st[k])
    {
      if k >= |s| {
        assert st[k] == t[k - |s|];
      }
    }
  }

  /** A row whose names hold no line end is written on one line and read back whole. */
  lemma {:induction false} RowChomp(a: string, b: string, tail: string)
    requires NoLineEnd(a) && NoLineEnd(b) && NumberChars(tail)
    ensures Chomp(Quoted(a) + (Quoted(b) + tail) + "\n") == Quoted(a) + (Quoted(b) + tail)
  {
    var s := Quoted(a) + (Quoted(b) + tail);
    forall i | 0 <= i < |s|
      ensures !IsLineEnd(s[i])
    {
      if i >= |Quoted(a)| + |Quoted(b)| {
        assert s[i] == tail[i - |Quoted(a)| - |Quoted(b)|];
      } else if i >= |Quoted(a)| {
        assert s[i] == Quoted(b)[i - |Quoted(a)|];
      } else {
        assert s[i] == Quoted(a)[i];
      }
    }
    ChompLine(s);
  }
}
