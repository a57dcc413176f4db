/** The text that says where a perf event's value goes, as "config1:0-7,32" (src/perf/PerfListener.cc), and what
    insertIntoConfig makes of it. */
module PerfFormat {
  import opened Common
  import opened Bits
  import opened Split
  import opened PerfConfig

  // ------------------------------------------------------------------ numbers

  predicate IsDigit(c: char) {
    '0' <= c <= '9'
  }

  function DigitValue(c: char): (d: nat)
    requires IsDigit(c)
    ensures d < 10
  {
    c as int - '0' as int
  }

  /** How many digits a text starts with. */
  function DigitCount(s: string): (n: nat)
    ensures n <= |s| && forall i | 0 <= i < n :: IsDigit(s[i])
  {
    if s == "" || !IsDigit(s[0]) then 0 else 1 + DigitCount(s[1..])
  }

  function Value(s: string): nat
    requires forall c | c in s :: IsDigit(c)
  {
    if s == "" then 0 else 10 * Value(s[..|s| - 1]) + DigitValue(s[|s| - 1])
  }

  /** std::stoul on a text without blanks and signs: the digits it starts with; an exception if there are none or the
      number is too large. */
  function Stoul(s: string): (r: Option<nat>)
    ensures r.Some? ==> r.value < WORD_SIZE
  {
    var n := DigitCount(s);
    if n == 0 || Value(s[..n]) >= WORD_SIZE then None else Some(Value(s[..n]))
  }

  /** A number in decimal. */
  function Decimal(n: nat): (s: string)
    ensures s != "" && forall c | c in s :: IsDigit(c)
  {
    var last := [(n % 10 + '0' as int) as char];
    if n < 10 then last else Decimal(n / 10) + last
  }

  lemma {:induction false} DecimalValue(n: nat)
    ensures Value(Decimal(n)) == n
  {
    var s := Decimal(n);
    if n >= 10 {
      DecimalValue(n / 10);
      assert s[..|s| - 1] == Decimal(n / 10);
    } else {
      assert s[..0] == "";
    }
  }

  lemma {:induction false} AllCounted(s: string)
    requires forall c | c in s :: IsDigit(c)
    ensures DigitCount(s) == |s|
  {
    if s != "" {
      AllCounted(s[1..]);
    }
  }

  lemma DecimalIsRead(n: nat)
    requires n < WORD_SIZE
    ensures Stoul(Decimal(n)) == Some(n)
  {
    DecimalValue(n);
    AllCounted(Decimal(n));
    assert Decimal(n)[..|Decimal(n)|] == Decimal(n);
  }

  // ------------------------------------------------------------------ formats

  /** A piece between commas: one number, or two with a dash between them. */
  ghost predicate IsRange(piece: string, r: Range) {
    exists numbers :: SplitOf(numbers, piece, "-") && Bounds(numbers, r)
  }

  predicate Bounds(numbers: seq<string>, r: Range) {
    && (|numbers| == 1 || |numbers| == 2)
    && Stoul(numbers[0]) == Some(r.start)
    && Stoul(numbers[|numbers| - 1]) == Some(r.end)
  }

  ghost predicate AreRanges(pieces: seq<string>, ranges: seq<Range>) {
    |pieces| == |ranges| && forall i | 0 <= i < |pieces| :: IsRange(pieces[i], ranges[i])
  }

  /** The text names a field and these ranges. */
  ghost predicate IsFormat(format: string, name: string, ranges: seq<Range>) {
    exists list, pieces ::
      SplitOf([name, list], format, ":") && SplitOf(pieces, list, ",") && AreRanges(pieces, ranges)
  }

  /** These are the ranges of the pieces up to the first that is none. */
  ghost predicate BeginWith(pieces: seq<string>, ranges: seq<Range>) {
    && |ranges| <= |pieces| && (forall i | 0 <= i < |ranges| :: IsRange(pieces[i], ranges[i]))
    && (|ranges| < |pieces| ==> !IsReadable(pieces[|ranges|]))
  }

  ghost predicate IsReadable(piece: string) {
    exists r :: IsRange(piece, r)
  }

  /** As far as it can be read the text names a field and these ranges. */
  ghost predicate Reads(format: string, name: string, ranges: seq<Range>) {
    exists list, pieces ::
      SplitOf([name, list], format, ":") && SplitOf(pieces, list, ",") && BeginWith(pieces, ranges)
  }

  lemma RangeIsUnique(piece: string, r: Range, q: Range)
    requires IsRange(piece, r) && IsRange(piece, q)
    ensures r == q
  {
    var a :| SplitOf(a, piece, "-") && Bounds(a, r);
    var b :| SplitOf(b, piece, "-") && Bounds(b, q);
    SplitIsUnique(a, b, piece, "-");
    BoundsAreUnique(a, r, q);
  }

  lemma BoundsAreUnique(numbers: seq<string>, r: Range, q: Range)
    requires Bounds(numbers, r) && Bounds(numbers, q)
    ensures r == q
  {}

  lemma BeginningIsReadable(pieces: seq<string>, ranges: seq<Range>)
    requires BeginWith(pieces, ranges)
    ensures forall i | 0 <= i < |ranges| :: IsReadable(pieces[i])
  {
    forall i | 0 <= i < |ranges| ensures IsReadable(pieces[i]) {
      assert IsRange(pieces[i], ranges[i]);
    }
  }

  lemma BeginningIsUnique(pieces: seq<string>, ranges: seq<Range>, others: seq<Range>)
    requires BeginWith(pieces, ranges) && BeginWith(pieces, others)
    ensures ranges == others
  {
    BeginningIsReadable(pieces, ranges);
    BeginningIsReadable(pieces, others);
    forall i | 0 <= i < |ranges| ensures ranges[i] == others[i] {
      RangeIsUnique(pieces[i], ranges[i], others[i]);
    }
  }

  /** A text reads as at most one field and list of ranges. */
  lemma ReadingIsUnique(format: string, name: string, ranges: seq<Range>, other: string, others: seq<Range>)
    requires Reads(format, name, ranges) && Reads(format, other, others)
    ensures name == other && ranges == others
  {
    var list, pieces :| SplitOf([name, list], format, ":") && SplitOf(pieces, list, ",") && BeginWith(pieces, ranges);
    var list', pieces' :|
      SplitOf([other, list'], format, ":") && SplitOf(pieces', list', ",") && BeginWith(pieces', others);
    SplitIsUnique([name, list], [other, list'], format, ":");
    assert [name, list][0] == [other, list'][0] && [name, list][1] == [other, list'][1];
    SplitIsUnique(pieces, pieces', list, ",");
    BeginningIsUnique(pieces, ranges, others);
  }

  lemma FormatReads(format: string, name: string, ranges: seq<Range>)
    requires IsFormat(format, name, ranges)
    ensures Reads(format, name, ranges)
  {
    var list, pieces :| SplitOf([name, list], format, ":") && SplitOf(pieces, list, ",") && AreRanges(pieces, ranges);
    assert BeginWith(pieces, ranges);
  }

  /** A text names at most one field and list of ranges. */
  lemma FormatIsUnique(format: string, name: string, ranges: seq<Range>, other: string, others: seq<Range>)
    requires IsFormat(format, name, ranges) && IsFormat(format, other, others)
    ensures name == other && ranges == others
  {
    FormatReads(format, name, ranges);
    FormatReads(format, other, others);
    ReadingIsUnique(format, name, ranges, other, others);
  }

  method ParseRange(piece: string) returns (r: Option<Range>)
    ensures r.Some? ==> IsRange(piece, r.value)
    ensures r == None ==> forall q :: !IsRange(piece, q)
  {
    var numbers := Split.Split(piece, "-");
    forall q | IsRange(piece, q) ensures Bounds(numbers, q) {
      var others :| SplitOf(others, piece, "-") && Bounds(others, q);
      SplitIsUnique(numbers, others, piece, "-");
    }
    if !(0 < |numbers| < 3) {
      return None;
    }
    var start := Stoul(numbers[0]);
    var end := start;
    if |numbers| == 2 {
      end := Stoul(numbers[1]);
    }
    if start == None || end == None {
      return None;
    }
    assert Bounds(numbers, Range(start.value, end.value));
    return Some(Range(start.value, end.value));
  }

  /** The ranges up to the first that cannot be read, and whether there is none such. */
  method ParseRanges(list: string) returns (ranges: seq<Range>, complete: bool)
    ensures exists pieces ::
      SplitOf(pieces, list, ",") && BeginWith(pieces, ranges) && (complete <==> AreRanges(pieces, ranges))
  {
    var pieces := Split.Split(list, ",");
    ranges := [];
    for i := 0 to |pieces|
      invariant |ranges| == i && forall j | 0 <= j < i :: IsRange(pieces[j], ranges[j])
    {
      var r := ParseRange(pieces[i]);
      if r == None {
        assert BeginWith(pieces, ranges);
        return ranges, false;
      }
      ranges := ranges + [r.value];
    }
    assert BeginWith(pieces, ranges);
    complete := true;
  }

  /** The field's name and the ranges as far as they can be read, and whether that is all; none for a failed assertion on
      the halves of the text. */
  method ParseFormat(format: string) returns (parsed: Option<(string, seq<Range>, bool)>)
    ensures parsed.Some? ==> Reads(format, parsed.value.0, parsed.value.1)
    ensures parsed.Some? ==> (parsed.value.2 <==> IsFormat(format, parsed.value.0, parsed.value.1))
    ensures parsed == None ==> forall name, ranges :: !Reads(format, name, ranges)
  {
    var halves := Split.Split(format, ":");
    forall others | SplitOf(others, format, ":") ensures others == halves {
      SplitIsUnique(others, halves, format, ":");
    }
    if |halves| != 2 {
      return None;
    }
    var name, list := halves[0], halves[1];
    assert halves == [name, list];
    var ranges, complete := ParseRanges(list);
    ghost var pieces :|
      SplitOf(pieces, list, ",") && BeginWith(pieces, ranges) && (complete <==> AreRanges(pieces, ranges));
    if IsFormat(format, name, ranges) {
      SameLengths(format, name, list, pieces, ranges);
    }
    return Some((name, ranges, complete));
  }

  lemma SameLengths(format: string, name: string, list: string, pieces: seq<string>, ranges: seq<Range>)
    requires IsFormat(format, name, ranges) && SplitOf([name, list], format, ":") && SplitOf(pieces, list, ",")
    ensures |pieces| == |ranges|
  {
    var list', pieces' :| SplitOf([name, list'], format, ":") && SplitOf(pieces', list', ",") && AreRanges(pieces', ranges);
    SplitIsUnique([name, list], [name, list'], format, ":");
    assert [name, list][1] == [name, list'][1];
    SplitIsUnique(pieces, pieces', list, ",");
  }

  // ------------------------------------------------------------------ inserting

  /** Formats for which the source's shifts and its array access are defined. */
  ghost predicate IsDefined(format: string) {
    forall name, ranges | Reads(format, name, ranges) && GetConfigFieldNumber(name) >= 0 ::
      GetConfigFieldNumber(name) < 3 && forall r | r in OrderedPrefix(ranges) :: r.Shiftable()
  }

  /** The format is one, of a field there is, and the value fits in its ranges. */
  ghost predicate Accepts(format: string, value: nat, name: string, ranges: seq<Range>) {
    && IsFormat(format, name, ranges) && GetConfigFieldNumber(name) >= 0
    && Ordered(ranges) && value < Pow2(TotalWidth(ranges))
  }

  /** These bits are set in the one field, and no others. */
  ghost predicate SetIn(was: seq<nat>, now: seq<nat>, field: int, ranges: seq<Range>, value: nat)
    requires |was| == |now| && Ordered(ranges)
  {
    forall f, b: nat | 0 <= f < |was| ::
      BitAt(now[f], b) <==> BitAt(was[f], b) || (f == field && Scattered(ranges, value, b))
  }

  /** insertIntoConfig. False is a failed assertion or an exception; what could be read before it is in the configuration
      then. */
  method InsertIntoConfig(config: array<Size>, format: string, value: Size) returns (ok: bool)
    requires config.Length == 3 && IsDefined(format)
    modifies config
    ensures ok <==> exists name, ranges :: Accepts(format, value, name, ranges)
    ensures forall name, ranges | Reads(format, name, ranges) ::
      SetIn(old(config[..]), config[..], GetConfigFieldNumber(name), OrderedPrefix(ranges), value)
    ensures (forall name, ranges :: !Reads(format, name, ranges)) ==> config[..] == old(config[..])
  {
    var parsed := ParseFormat(format);
    if parsed == None {
      NothingIsAccepted(format, value);
      return false;
    }
    var (name, ranges, complete) := parsed.value;
    OnlyReading(format, value, name, ranges);
    ok := Put(config, GetConfigFieldNumber(name), ranges, value);
    ok := complete && ok;
    assert ok <==> Accepts(format, value, name, ranges);
  }

  /** The ranges that were read, put into their field if there is one. */
  method Put(config: array<Size>, field: int, ranges: seq<Range>, value: Size) returns (ok: bool)
    requires field < config.Length && (field >= 0 ==> forall r | r in OrderedPrefix(ranges) :: r.Shiftable())
    modifies config
    ensures ok <==> field >= 0 && Ordered(ranges) && value < Pow2(TotalWidth(ranges))
    ensures SetIn(old(config[..]), config[..], field, OrderedPrefix(ranges), value)
  {
    if field < 0 {
      return false;
    }
    ok := PerfConfig.InsertIntoConfig(config, field, ranges, value);
  }

  lemma NothingIsAccepted(format: string, value: nat)
    requires forall name, ranges :: !Reads(format, name, ranges)
    ensures forall name, ranges :: !Accepts(format, value, name, ranges)
  {
    forall name, ranges ensures !Accepts(format, value, name, ranges) {
      if IsFormat(format, name, ranges) {
        FormatReads(format, name, ranges);
      }
    }
  }

  /** The text reads, and is accepted, as one field and list of ranges only. */
  lemma OnlyReading(format: string, value: nat, name: string, ranges: seq<Range>)
    requires Reads(format, name, ranges)
    ensures forall other, others | Reads(format, other, others) :: other == name && others == ranges
    ensures forall other, others | Accepts(format, value, other, others) :: other == name && others == ranges
  {
    forall other, others | Reads(format, other, others) ensures other == name && others == ranges {
      ReadingIsUnique(format, name, ranges, other, others);
    }
    forall other, others | Accepts(format, value, other, others) ensures other == name && others == ranges {
      FormatReads(format, other, others);
    }
  }

  // ------------------------------------------------------------------ written and read back

  function ShowRange(r: Range): string {
    if r.start == r.end then Decimal(r.start) else Join([Decimal(r.start), Decimal(r.end)], "-")
  }

  function ShowRanges(ranges: seq<Range>): seq<string> {
    seq(|ranges|, i requires 0 <= i < |ranges| => ShowRange(ranges[i]))
  }

  function ShowFormat(name: string, ranges: seq<Range>): string {
    Join([name, Join(ShowRanges(ranges), ",")], ":")
  }

  lemma {:induction false} NotInFlat(tokens: seq<string>, d: string, c: char)
    requires c !in d && forall t | t in tokens :: c !in t
    ensures c !in Flat(tokens, d)
  {
    if tokens != [] {
      NotInFlat(tokens[1..], d, c);
    }
  }

  lemma NotInJoin(tokens: seq<string>, d: string, c: char)
    requires c !in d && forall t | t in tokens :: c !in t
    ensures c !in Join(tokens, d)
  {
    if tokens != [] {
      NotInFlat(tokens[..|tokens| - 1], d, c);
    }
  }

  predicate IsWord(n: nat) {
    n < WORD_SIZE
  }

  lemma ShownRangeIsRead(r: Range)
    requires IsWord(r.start) && IsWord(r.end)
    ensures IsRange(ShowRange(r), r)
    ensures ',' !in ShowRange(r) && ':' !in ShowRange(r) && ShowRange(r) != ""
  {
    DecimalIsRead(r.start);
    DecimalIsRead(r.end);
    var numbers := if r.start == r.end then [Decimal(r.start)] else [Decimal(r.start), Decimal(r.end)];
    CharSplits(numbers, '-');
    NotInJoin(numbers, "-", ',');
    NotInJoin(numbers, "-", ':');
    if r.start == r.end {
      assert Flat([], "-") == "" && numbers[..0] == [];
    }
    assert Join(numbers, "-") == ShowRange(r);
    assert Bounds(numbers, r);
  }

  lemma ShownRangesAreRead(ranges: seq<Range>)
    requires ranges != [] && forall r | r in ranges :: IsWord(r.start) && IsWord(r.end)
    ensures var pieces := ShowRanges(ranges);
      && SplitOf(pieces, Join(pieces, ","), ",") && AreRanges(pieces, ranges)
      && ':' !in Join(pieces, ",") && Join(pieces, ",") != ""
  {
    var pieces := ShowRanges(ranges);
    forall i | 0 <= i < |pieces|
      ensures IsRange(pieces[i], ranges[i]) && ',' !in pieces[i] && ':' !in pieces[i] && pieces[i] != ""
    {
      ShownRangeIsRead(ranges[i]);
    }
    CharSplits(pieces, ',');
    NotInJoin(pieces, ",", ':');
  }

  /** Every field name and list of ranges has a text that names them. */
  lemma ShownFormatIsRead(name: string, ranges: seq<Range>)
    requires ':' !in name && ranges != [] && forall r | r in ranges :: IsWord(r.start) && IsWord(r.end)
    ensures IsFormat(ShowFormat(name, ranges), name, ranges)
  {
    var pieces := ShowRanges(ranges);
    var list := Join(pieces, ",");
    ShownRangesAreRead(ranges);
    CharSplits([name, list], ':');
  }
}
