/** Parsing of the Range header (src/fastdl_server.cpp): checked decimal numbers and one byte range, as
    in sections 14.1.2 and 14.2 of RFC 9110. */
module ByteRange {
  import opened Basics
  import opened Numerals

  datatype Parsed = Number(value: nat) | NotANumber

  datatype Range = Absent | Invalid | Unsatisfiable | Valid(start: nat, length: nat)

  /** The number a text denotes, if it is a nonempty digit string whose value fits 64 bits. */
  function Unsigned(text: string): (p: Parsed) {
    if text != [] && AllDigits(text, 10) && Value(text, 10) <= MAX_U64 then Number(Value(text, 10)) else NotANumber
  }

  lemma {:induction false} ValueGrows(text: string, n: nat)
    requires AllDigits(text, 10) && n <= |text|
    ensures AllDigits(text[..n], 10) && Value(text[..n], 10) <= Value(text, 10)
    decreases |text|
  {
    if n < |text| {
      var front := text[..|text| - 1];
      assert front[..n] == text[..n];
      ValueGrows(front, n);
    } else {
      assert text[..n] == text;
    }
  }

  /** The loop of `parseUnsigned`: it fails on the first non-digit, and on the first digit that would
      carry the value past 64 bits, without ever computing such a value. */
  method ParseUnsigned(text: string) returns (p: Parsed)
    ensures p == Unsigned(text)
  {
    if text == [] {
      return NotANumber;
    }
    var parsed: nat := 0;
    var i := 0;
    while i < |text|
      invariant 0 <= i <= |text| && AllDigits(text[..i], 10)
      invariant parsed == Value(text[..i], 10) <= MAX_U64
    {
      var c := text[i];
      if c < '0' || c > '9' {
        assert !IsDigit(text[i], 10);
        return NotANumber;
      }
      var digit := c as int - '0' as int;
      assert text[..i + 1][..i] == text[..i];
      assert Value(text[..i + 1], 10) == parsed * 10 + digit;
      if parsed > (MAX_U64 - digit) / 10 {
        if AllDigits(text, 10) {
          ValueGrows(text, i + 1);
        }
        return NotANumber;
      }
      parsed := parsed * 10 + digit;
      i := i + 1;
    }
    assert text[..i] == text;
    p := Number(parsed);
  }

  /** Blanks removed at both ends. */
  function TrimAscii(text: string): (r: string)
    decreases |text|
  {
    if text != [] && SpaceOrTab(text[0]) then TrimAscii(text[1..])
    else if text != [] && SpaceOrTab(text[|text| - 1]) then TrimAscii(text[..|text| - 1])
    else text
  }

  predicate IsLetter(c: char, lower: char, upper: char) { c == lower || c == upper }

  predicate HasUnit(value: string) {
    && |value| >= 6
    && IsLetter(value[0], 'b', 'B') && IsLetter(value[1], 'y', 'Y') && IsLetter(value[2], 't', 'T')
    && IsLetter(value[3], 'e', 'E') && IsLetter(value[4], 's', 'S') && value[5] == '='
  }

  /** A range specification around its dash (lines 158-190). */
  function ParseSpec(first: string, second: string, total: nat): (r: Range)
    requires total > 0
  {
    if first == [] then
      var suffix := Unsigned(second);
      if suffix.NotANumber? || suffix.value == 0 then Invalid
      else
        var length := if suffix.value <= total then suffix.value else total;
        Valid(total - length, length)
    else
      var start := Unsigned(first);
      if start.NotANumber? then Invalid
      else if start.value >= total then Unsatisfiable
      else if second == [] then Valid(start.value, total - start.value)
      else
        var end := Unsigned(second);
        if end.NotANumber? || end.value < start.value then Unsatisfiable
        else
          var last := if end.value <= total - 1 then end.value else total - 1;
          Valid(start.value, last - start.value + 1)
  }

  function ParseRange(raw: string, total: nat): (r: Range) {
    var value := TrimAscii(raw);
    if value == [] then Absent
    else if !HasUnit(value) then Invalid
    else
      var spec := value[6..];
      var dash := Find(spec, '-', 0);
      if spec == [] || ',' in spec then Invalid
      else if dash == |spec| || Find(spec, '-', dash + 1) != |spec| then Invalid
      else if total == 0 then Unsatisfiable
      else ParseSpec(spec[..dash], spec[dash + 1..], total)
  }

  /** Whatever the header, a valid range is a nonempty piece of the file and the only one asked for. */
  lemma RangeInside(raw: string, total: nat)
    ensures var r := ParseRange(raw, total);
            r.Valid? ==> r.length >= 1 && r.start + r.length <= total && ',' !in TrimAscii(raw)
  {
    NoComma(TrimAscii(raw));
  }

  lemma NoComma(value: string)
    ensures HasUnit(value) && ',' !in value[6..] ==> ',' !in value
  {
    if HasUnit(value) {
      assert value == value[..6] + value[6..];
      assert ',' !in value[..6];
    }
  }

  /** The text of a closed range. */
  function PrintRange(start: nat, end: nat): (text: string) {
    "bytes=" + Decimal(start) + "-" + Decimal(end)
  }

  lemma TrimAsciiNothing(text: string)
    requires text != [] && !SpaceOrTab(text[0]) && !SpaceOrTab(text[|text| - 1])
    ensures TrimAscii(text) == text
  {
  }

  lemma DigitsAreNot(text: string, c: char)
    requires AllDigits(text, 10) && !IsDigit(c, 10)
    ensures c !in text
  {
  }

  lemma FindDash(first: string, second: string)
    requires '-' !in first && '-' !in second
    ensures var spec := first + "-" + second;
            Find(spec, '-', 0) == |first| && Find(spec, '-', |first| + 1) == |spec|
  {
    var spec := first + "-" + second;
    assert spec[|first|] == '-';
    assert forall k :: 0 <= k < |first| ==> spec[k] == first[k];
    assert forall k :: |first| < k < |spec| ==> spec[k] == second[k - |first| - 1];
  }

  lemma UnitStripped(spec: string)
    requires spec != [] && !SpaceOrTab(spec[|spec| - 1])
    ensures var value := "bytes=" + spec; TrimAscii(value) == value && HasUnit(value) && value[6..] == spec
  {
    var value := "bytes=" + spec;
    assert value[0] == 'b' && value[|value| - 1] == spec[|spec| - 1];
    TrimAsciiNothing(value);
  }

  /** The pieces of a header whose specification has one dash and no comma. */
  lemma ParseShape(first: string, second: string, total: nat)
    requires total > 0 && '-' !in first && '-' !in second && ',' !in first && ',' !in second
    requires second != [] ==> !SpaceOrTab(second[|second| - 1])
    ensures ParseRange("bytes=" + first + "-" + second, total) == ParseSpec(first, second, total)
  {
    var spec := first + "-" + second;
    var value := "bytes=" + spec;
    assert value == "bytes=" + first + "-" + second;
    assert spec[|spec| - 1] == if second == [] then '-' else second[|second| - 1];
    UnitStripped(spec);
    FormParses(value, "bytes=", first, second, total);
  }

  /** What a closed range asks for: nothing if it is reversed or starts past the end, else the piece of
      the file it covers. */
  lemma ClosedRange(start: nat, end: nat, total: nat)
    requires 0 < total <= MAX_U64 && start <= MAX_U64 && end <= MAX_U64
    ensures ParseRange(PrintRange(start, end), total) ==
            if start >= total || end < start then Unsatisfiable
            else Valid(start, (if end < total then end else total - 1) - start + 1)
  {
    var first, second := Decimal(start), Decimal(end);
    DigitsAreNot(first, '-');
    DigitsAreNot(first, ',');
    DigitsAreNot(second, '-');
    DigitsAreNot(second, ',');
    assert IsDigit(second[|second| - 1], 10);
    ParseShape(first, second, total);
  }

  /** Printing a closed range of an existing file and parsing it gives that range back. */
  lemma RangeRoundTrip(start: nat, end: nat, total: nat)
    requires start <= end < total <= MAX_U64
    ensures ParseRange(PrintRange(start, end), total) == Valid(start, end - start + 1)
  {
    ClosedRange(start, end, total);
  }

  /** An open range asks for the rest of the file, a suffix range for its end, cut to what there is. */
  lemma OpenAndSuffix(n: nat, total: nat)
    requires 0 < total <= MAX_U64 && n <= MAX_U64
    ensures n < total ==> ParseRange("bytes=" + Decimal(n) + "-", total) == Valid(n, total - n)
    ensures n >= total ==> ParseRange("bytes=" + Decimal(n) + "-", total) == Unsatisfiable
    ensures n > 0 ==> ParseRange("bytes=" + "-" + Decimal(n), total) == (if n <= total then Valid(total - n, n) else Valid(0, total))
  {
    var d := Decimal(n);
    DigitsAreNot(d, '-');
    DigitsAreNot(d, ',');
    assert IsDigit(d[|d| - 1], 10);
    ParseShape(d, [], total);
    ParseShape([], d, total);
    assert "bytes=" + d + "-" + [] == "bytes=" + d + "-";
    assert "bytes=" + [] + "-" + d == "bytes=" + "-" + d;
  }

  /** Every range the parser accepts, in whatever form it was asked for, is the closed range it prints as. */
  lemma RangeCanonical(raw: string, total: nat)
    requires total <= MAX_U64 && ParseRange(raw, total).Valid?
    ensures var r := ParseRange(raw, total); ParseRange(PrintRange(r.start, r.start + r.length - 1), total) == r
  {
    RangeInside(raw, total);
    var r := ParseRange(raw, total);
    RangeRoundTrip(r.start, r.start + r.length - 1, total);
  }

  // ---------------------------------------------------------------- every header

  predicate AllBlank(text: string) { forall i :: 0 <= i < |text| ==> SpaceOrTab(text[i]) }

  function Lower(c: char): (r: char) { if 'A' <= c <= 'Z' then (c as int + 32) as char else c }

  /** The unit, in whatever letter case. */
  predicate IsUnit(text: string) {
    |text| == 6 && Lower(text[0]) == 'b' && Lower(text[1]) == 'y' && Lower(text[2]) == 't' && Lower(text[3]) == 'e'
    && Lower(text[4]) == 's' && text[5] == '='
  }

  /** Part of a specification of one range. */
  predicate IsPart(text: string) { '-' !in text && ',' !in text }

  /** The trimmed text is a unit and two parts around one dash. */
  predicate IsForm(value: string, unit: string, first: string, second: string) {
    IsUnit(unit) && IsPart(first) && IsPart(second) && value == unit + (first + "-" + second)
  }

  /** The header is such a text between blanks. */
  ghost predicate IsHeader(raw: string, first: string, second: string) {
    exists pre, unit, post :: Around(raw, pre, unit, first, second, post)
  }

  predicate Around(raw: string, pre: string, unit: string, first: string, second: string, post: string) {
    && AllBlank(pre) && AllBlank(post) && IsUnit(unit) && IsPart(first) && IsPart(second)
    && raw == pre + (unit + (first + "-" + second)) + post && (second != [] ==> !SpaceOrTab(second[|second| - 1]))
  }

  /** Trimming finds the text between the blanks. */
  lemma {:induction false} TrimAsciiCore(pre: string, core: string, post: string)
    requires AllBlank(pre) && AllBlank(post)
    requires core != [] ==> !SpaceOrTab(core[0]) && !SpaceOrTab(core[|core| - 1])
    ensures TrimAscii(pre + core + post) == core
    decreases |pre| + |post|
  {
    var text := pre + core + post;
    if pre != [] {
      assert text[1..] == pre[1..] + core + post;
      TrimAsciiCore(pre[1..], core, post);
    } else if core == [] && post != [] {
      assert text == post && text[1..] == pre + core + post[1..];
      TrimAsciiCore(pre, core, post[1..]);
    } else if post != [] {
      assert text[0] == core[0] && text[..|text| - 1] == pre + core + post[..|post| - 1];
      TrimAsciiCore(pre, core, post[..|post| - 1]);
    } else {
      assert text == core;
    }
  }

  /** There is always such a text. */
  lemma {:induction false} TrimAsciiParts(raw: string) returns (pre: string, post: string)
    ensures AllBlank(pre) && AllBlank(post) && raw == pre + TrimAscii(raw) + post
    ensures TrimAscii(raw) != [] ==> !SpaceOrTab(TrimAscii(raw)[0]) && !SpaceOrTab(TrimAscii(raw)[|TrimAscii(raw)| - 1])
    decreases |raw|
  {
    if raw != [] && SpaceOrTab(raw[0]) {
      pre, post := TrimAsciiParts(raw[1..]);
      assert raw == [raw[0]] + raw[1..];
      pre := [raw[0]] + pre;
    } else if raw != [] && SpaceOrTab(raw[|raw| - 1]) {
      var front := raw[..|raw| - 1];
      pre, post := TrimAsciiParts(front);
      assert raw == front + [raw[|raw| - 1]];
      post := post + [raw[|raw| - 1]];
    } else {
      pre, post := [], [];
    }
  }

  /** No range is asked for exactly if there is nothing but blanks. */
  lemma AbsentIff(raw: string, total: nat)
    ensures ParseRange(raw, total) == Absent <==> AllBlank(raw)
  {
    var pre, post := TrimAsciiParts(raw);
    if TrimAscii(raw) == [] {
      assert raw == pre + post;
    }
    if AllBlank(raw) {
      TrimAsciiCore(raw, [], []);
      assert raw + [] + [] == raw;
    }
    NotAbsent(raw, total);
  }

  lemma NotAbsent(raw: string, total: nat)
    ensures ParseRange(raw, total) == Absent <==> TrimAscii(raw) == []
  {
  }

  /** Blanks around a header do not matter. */
  lemma BlanksDoNotMatter(pre: string, raw: string, post: string, total: nat)
    requires AllBlank(pre) && AllBlank(post)
    ensures ParseRange(pre + raw + post, total) == ParseRange(raw, total)
  {
    var a, b := TrimAsciiParts(raw);
    TrimAsciiCore(a, TrimAscii(raw), b);
    TrimAsciiCore(pre + a, TrimAscii(raw), b + post);
    assert pre + (a + TrimAscii(raw) + b) + post == (pre + a) + TrimAscii(raw) + (b + post);
  }

  lemma UnitIff(value: string)
    ensures HasUnit(value) <==> |value| >= 6 && IsUnit(value[..6])
  {
  }

  lemma FindNone(text: string, c: char, from: nat)
    requires from <= |text|
    ensures Find(text, c, from) == |text| <==> c !in text[from..]
  {
    if Find(text, c, from) < |text| {
      assert text[from..][Find(text, c, from) - from] == c;
    }
  }

  /** A header of the right form means what its two parts say. */
  lemma FormParses(value: string, unit: string, first: string, second: string, total: nat)
    requires IsForm(value, unit, first, second) && TrimAscii(value) == value
    ensures ParseRange(value, total) == if total == 0 then Unsatisfiable else ParseSpec(first, second, total)
  {
    var spec := first + "-" + second;
    assert value[..6] == unit && value[6..] == spec;
    UnitIff(value);
    FindDash(first, second);
    assert ',' !in spec;
    assert spec[..|first|] == first && spec[|first| + 1..] == second;
  }

  /** A text that is not refused has the right form. */
  lemma ParsesForm(value: string, total: nat) returns (unit: string, first: string, second: string)
    requires TrimAscii(value) == value && value != [] && ParseRange(value, total) != Invalid
    ensures IsForm(value, unit, first, second)
  {
    UnitIff(value);
    var spec := value[6..];
    var dash := Find(spec, '-', 0);
    FindNone(spec, '-', dash + 1);
    unit, first, second := value[..6], spec[..dash], spec[dash + 1..];
    assert spec == first + "-" + second;
    assert value == unit + spec;
  }

  lemma HeaderTrims(raw: string, first: string, second: string) returns (unit: string)
    requires IsHeader(raw, first, second)
    ensures IsForm(TrimAscii(raw), unit, first, second) && TrimAscii(TrimAscii(raw)) == TrimAscii(raw)
  {
    var pre, u, post :| Around(raw, pre, u, first, second, post);
    unit := u;
    var core := unit + (first + "-" + second);
    assert core[0] == unit[0] && core[|core| - 1] == if second == [] then '-' else second[|second| - 1];
    TrimAsciiCore(pre, core, post);
    TrimAsciiCore([], core, []);
    assert [] + core + [] == core;
  }

  lemma FormIsHeader(raw: string, unit: string, first: string, second: string)
    requires IsForm(TrimAscii(raw), unit, first, second)
    ensures IsHeader(raw, first, second)
  {
    var pre, post := TrimAsciiParts(raw);
    var core := TrimAscii(raw);
    assert core[|core| - 1] == if second == [] then '-' else second[|second| - 1];
    assert Around(raw, pre, unit, first, second, post);
  }

  /** What the parts of a header say: the four answers for the file, by the numbers alone. */
  lemma HeaderMeans(raw: string, first: string, second: string, total: nat)
    requires IsHeader(raw, first, second)
    ensures var r, a, b := ParseRange(raw, total), Unsigned(first), Unsigned(second);
            && (total == 0 ==> r == Unsatisfiable)
            && (total > 0 && first == [] ==>
                  r == if b.Number? && b.value > 0 then Valid(total - Min(b.value, total), Min(b.value, total)) else Invalid)
            && (total > 0 && first != [] && a.NotANumber? ==> r == Invalid)
            && (total > 0 && a.Number? && a.value >= total ==> r == Unsatisfiable)
            && (total > 0 && a.Number? && a.value < total && second == [] ==> r == Valid(a.value, total - a.value))
            && (total > 0 && a.Number? && a.value < total && second != [] ==>
                  r == if b.Number? && b.value >= a.value then Valid(a.value, Min(b.value, total - 1) - a.value + 1) else Unsatisfiable)
  {
    var unit := HeaderTrims(raw, first, second);
    FormParses(TrimAscii(raw), unit, first, second, total);
  }

  /** And every other header is refused. */
  lemma OthersInvalid(raw: string, total: nat)
    requires !AllBlank(raw) && !exists first, second :: IsHeader(raw, first, second)
    ensures ParseRange(raw, total) == Invalid
  {
    AbsentIff(raw, total);
    NotAbsent(raw, total);
    if ParseRange(raw, total) != Invalid {
      var pre, post := TrimAsciiParts(raw);
      var value := TrimAscii(raw);
      TrimAsciiCore([], value, []);
      assert [] + value + [] == value;
      var unit, first, second := ParsesForm(value, total);
      FormIsHeader(raw, unit, first, second);
    }
  }
}
