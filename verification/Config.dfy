/** Configuration lines (src/config_parser.cpp) and the line the plugin generates for a setting
    (src/meta_plugin.cpp): a name, padding, a quoted value, and possibly a comment. */
module Config {
  import opened Basics

  predicate Blank(c: char) { c == ' ' || c == '\t' || c == '\r' || c == '\n' }

  /** What separates words for a stream: the blanks, vertical tab and form feed. */
  predicate Space(c: char) { Blank(c) || c == 11 as char || c == 12 as char }

  predicate AllBlank(text: string) { forall i :: 0 <= i < |text| ==> Blank(text[i]) }

  /** Blanks removed at both ends. */
  function Trim(text: string): (r: string)
    decreases |text|
  {
    if text != [] && Blank(text[0]) then Trim(text[1..])
    else if text != [] && Blank(text[|text| - 1]) then Trim(text[..|text| - 1])
    else text
  }

  /** A comment starts here: two slashes after an even number of quotes. */
  predicate IsComment(line: string, i: nat) {
    && i + 1 < |line|
    && line[i] == '/' && line[i + 1] == '/'
    && multiset(line[..i])['"'] % 2 == 0
  }

  /** Where the comment starts, or the end of the line. */
  function CommentStart(line: string, from: nat): (i: nat)
    requires from <= |line|
    ensures from <= i <= |line| && (i < |line| ==> IsComment(line, i))
    ensures forall k :: from <= k < i ==> !IsComment(line, k)
    decreases |line| - from
  {
    if from == |line| || IsComment(line, from) then from else CommentStart(line, from + 1)
  }

  function Uncommented(line: string): (r: string) { line[..CommentStart(line, 0)] }

  /** The loop of `stripComment`, which keeps one flag instead of counting quotes. */
  method StripComment(line: string) returns (r: string)
    ensures r == Uncommented(line)
  {
    var quoted := false;
    var i := 0;
    while i + 1 < |line|
      invariant i == 0 || i < |line|
      invariant quoted == (multiset(line[..i])['"'] % 2 == 1)
      invariant forall k :: 0 <= k < i ==> !IsComment(line, k)
    {
      assert line[..i + 1] == line[..i] + [line[i]];
      if line[i] == '"' {
        quoted := !quoted;
      } else if !quoted && line[i] == '/' && line[i + 1] == '/' {
        assert IsComment(line, i);
        return line[..i];
      }
      i := i + 1;
    }
    assert line[..|line|] == line;
    r := line;
  }

  /** The first position at or after `from` where stream separators begin, or end. */
  function SpaceFrom(line: string, from: nat, space: bool): (i: nat)
    requires from <= |line|
    ensures from <= i <= |line| && (i < |line| ==> Space(line[i]) == space)
    ensures forall k :: from <= k < i ==> Space(line[k]) != space
    decreases |line| - from
  {
    if from == |line| || Space(line[from]) == space then from else SpaceFrom(line, from + 1, space)
  }

  function Earlier(i: nat, j: nat): (r: nat) { if i <= j then i else j }

  datatype Value = Value(text: string) | NoValue

  /** The value in what follows the name: quoted to the next quote with nothing but blanks behind it, or
      everything up to the first space or tab. */
  function ParseValue(remainder: string): (v: Value)
    ensures v.Value? ==> v.text != []
  {
    if remainder == [] then NoValue
    else if remainder[0] == '"' then
      var closing := Find(remainder, '"', 1);
      if closing == |remainder| || closing == 1 || Trim(remainder[closing + 1..]) != [] then NoValue
      else Value(remainder[1..closing])
    else
      var end := Earlier(Find(remainder, ' ', 0), Find(remainder, '\t', 0));
      if end == 0 then NoValue else Value(remainder[..end])
  }

  datatype Assignment = Assignment(name: string, value: string) | NoAssignment

  /** The first word of a line and the value on the rest of that line. */
  function ParseWords(line: string): (a: Assignment) {
    var start := SpaceFrom(line, 0, false);
    if start == |line| then NoAssignment
    else
      var end := SpaceFrom(line, start, true);
      var rest := line[end..];
      match ParseValue(Trim(rest[..Find(rest, '\n', 0)]))
      case NoValue => NoAssignment
      case Value(value) => Assignment(line[start..end], value)
  }

  function ParseAssignment(raw: string): (a: Assignment) { ParseWords(Trim(Uncommented(raw))) }

  // ---------------------------------------------------------------- the printer

  function Spaces(n: nat): (r: string)
    ensures |r| == n && forall i :: 0 <= i < n ==> r[i] == ' '
  {
    seq(n, _ => ' ')
  }

  function Quoted(value: string): (r: string) { ['"'] + value + ['"'] }

  /** A setting as the generated file writes it, the name left-aligned in a column of the given width. */
  function PrintSetting(name: string, width: nat, value: string): (line: string)
    requires |name| <= width
  {
    name + Spaces(width - |name|) + Quoted(value)
  }

  predicate NoSlashes(text: string) { forall i :: 0 <= i < |text| - 1 ==> !(text[i] == '/' && text[i + 1] == '/') }

  /** A name: nonempty, without separators, quotes or two slashes in a row. */
  predicate IsName(name: string) {
    && name != [] && NoSlashes(name)
    && (forall i :: 0 <= i < |name| ==> !Space(name[i]) && name[i] != '"')
  }

  /** A value that can be quoted: nonempty, without quotes or line ends. Slashes and spaces are allowed. */
  predicate IsQuotable(value: string) {
    value != [] && forall i :: 0 <= i < |value| ==> value[i] != '"' && value[i] != '\n'
  }

  /** Behind the value: blanks, and possibly a comment with any text. */
  predicate IsTail(gap: string, comment: string) {
    AllBlank(gap) && (comment == [] || (|comment| >= 2 && comment[0] == '/' && comment[1] == '/'))
  }

  /** What separates a name from its value: spaces and tabs. */
  predicate IsPad(pad: string) { pad != [] && forall i :: 0 <= i < |pad| ==> SpaceOrTab(pad[i]) }

  function FirstLine(text: string): (line: string) { text[..Find(text, '\n', 0)] }

  // ---------------------------------------------------------------- trimming

  lemma {:induction false} TrimFront(pre: string, text: string)
    requires AllBlank(pre)
    ensures Trim(pre + text) == Trim(text)
    decreases |pre|
  {
    if pre == [] {
      assert pre + text == text;
    } else {
      assert (pre + text)[1..] == pre[1..] + text;
      TrimFront(pre[1..], text);
    }
  }

  lemma {:induction false} TrimBack(head: string, tail: string) returns (kept: string)
    requires head != [] && !Blank(head[0]) && !Blank(head[|head| - 1])
    ensures kept <= tail && AllBlank(tail[|kept|..]) && Trim(head + tail) == head + kept
    decreases |tail|
  {
    var text := head + tail;
    assert text[0] == head[0];
    if tail != [] && Blank(tail[|tail| - 1]) {
      var front := tail[..|tail| - 1];
      assert text[..|text| - 1] == head + front;
      kept := TrimBack(head, front);
      assert tail[|kept|..] == front[|kept|..] + [tail[|tail| - 1]];
    } else {
      assert text[|text| - 1] == if tail == [] then head[|head| - 1] else tail[|tail| - 1];
      kept := tail;
    }
  }

  /** Trimming what starts with a nonblank text after blanks keeps that text up to its end; only blanks go. */
  lemma TrimTail(pre: string, head: string, tail: string) returns (kept: string)
    requires AllBlank(pre) && head != [] && !Blank(head[0]) && !Blank(head[|head| - 1])
    ensures kept <= tail && AllBlank(tail[|kept|..]) && Trim(pre + (head + tail)) == head + kept
  {
    TrimFront(pre, head + tail);
    kept := TrimBack(head, tail);
  }

  lemma {:induction false} TrimEmptyIff(text: string)
    ensures Trim(text) == [] <==> AllBlank(text)
    decreases |text|
  {
    if text != [] {
      if Blank(text[0]) {
        TrimEmptyIff(text[1..]);
        assert text == [text[0]] + text[1..];
      } else if Blank(text[|text| - 1]) {
        TrimEmptyIff(text[..|text| - 1]);
        assert text[..|text| - 1][0] == text[0];
      }
    }
  }

  // ---------------------------------------------------------------- lines and comments

  lemma FirstLineAppend(head: string, tail: string)
    requires forall i :: 0 <= i < |head| ==> head[i] != '\n'
    ensures FirstLine(head + tail) == head + FirstLine(tail)
  {
    var text, n := head + tail, Find(tail, '\n', 0);
    assert forall i :: 0 <= i < |head| ==> text[i] == head[i];
    assert forall i :: 0 <= i < |tail| ==> text[|head| + i] == tail[i];
    assert Find(text, '\n', 0) == |head| + n;
  }

  /** Blanks at the end do not change whether the first line is blank. */
  lemma FirstLineBlank(text: string, blanks: string)
    requires AllBlank(blanks)
    ensures AllBlank(FirstLine(text + blanks)) <==> AllBlank(FirstLine(text))
  {
    var n := Find(text, '\n', 0);
    if n == |text| {
      FirstLineAppend(text, blanks);
      assert FirstLine(text) == text;
      var line := FirstLine(text + blanks);
      assert forall i :: 0 <= i < |text| ==> line[i] == text[i];
    } else {
      var all := text + blanks;
      assert forall i :: 0 <= i < |text| ==> all[i] == text[i];
      assert Find(all, '\n', 0) == n;
      assert all[..n] == text[..n];
    }
  }

  lemma NoQuotes(text: string)
    requires forall i :: 0 <= i < |text| ==> text[i] != '"'
    ensures multiset(text)['"'] == 0
  {
    assert '"' !in text;
  }

  /** Behind an even number of quotes a line goes on as if it began there. */
  lemma CommentShift(head: string, tail: string, i: nat)
    requires multiset(head)['"'] % 2 == 0
    ensures IsComment(head + tail, |head| + i) <==> IsComment(tail, i)
  {
    if i + 1 < |tail| {
      assert (head + tail)[..|head| + i] == head + tail[..i];
    }
  }

  lemma UncommentedAppend(head: string, tail: string)
    requires multiset(head)['"'] % 2 == 0
    requires forall i :: 0 <= i < |head| ==> !IsComment(head + tail, i)
    ensures Uncommented(head + tail) == head + Uncommented(tail)
  {
    var line, n := head + tail, CommentStart(tail, 0);
    forall i | 0 <= i < |head| + n ensures !IsComment(line, i) {
      if i >= |head| {
        CommentShift(head, tail, i - |head|);
      }
    }
    CommentShift(head, tail, n);
    assert CommentStart(line, 0) == |head| + n;
  }

  // ---------------------------------------------------------------- quoted values

  lemma HeadOk(name: string, pad: string)
    requires IsName(name) && IsPad(pad)
    ensures var head := name + pad;
            NoSlashes(head) && head[|head| - 1] != '/' && (forall k :: 0 <= k < |head| ==> head[k] != '"')
  {
    var head := name + pad;
    assert forall i :: 0 <= i < |head| - 1 ==> (i + 1 < |name| ==> head[i] == name[i] && head[i + 1] == name[i + 1]);
    assert head[|head| - 1] == pad[|pad| - 1];
  }

  /** Nothing in a printed setting looks like a comment: slashes in the value are between quotes. */
  lemma NoCommentInside(head: string, value: string, rest: string, i: nat)
    requires head != [] && NoSlashes(head) && head[|head| - 1] != '/'
    requires forall k :: 0 <= k < |head| ==> head[k] != '"'
    requires forall k :: 0 <= k < |value| ==> value[k] != '"'
    requires i < |head| + |value| + 2
    ensures !IsComment(head + Quoted(value) + rest, i)
  {
    var line := head + Quoted(value) + rest;
    var h := |head|;
    assert line[h] == '"' && line[h + 1 + |value|] == '"';
    if i < h {
      assert line[i] == head[i] && (i + 1 < h ==> line[i + 1] == head[i + 1]);
    } else if h < i <= h + |value| {
      assert line[..i] == head + ['"'] + value[..i - h - 1];
      NoQuotes(head);
      NoQuotes(value[..i - h - 1]);
    }
  }

  lemma SettingUncommented(name: string, pad: string, value: string, tail: string)
    requires IsName(name) && IsPad(pad) && IsQuotable(value)
    ensures Uncommented(name + pad + Quoted(value) + tail) == name + pad + Quoted(value) + Uncommented(tail)
  {
    var head := name + pad;
    HeadOk(name, pad);
    NoQuotes(head);
    NoQuotes(value);
    forall i | 0 <= i < |head + Quoted(value)| ensures !IsComment(head + Quoted(value) + tail, i) {
      NoCommentInside(head, value, tail, i);
    }
    UncommentedAppend(head + Quoted(value), tail);
  }

  lemma WordSpan(name: string, rest: string)
    requires IsName(name) && rest != [] && Space(rest[0])
    ensures SpaceFrom(name + rest, 0, false) == 0 && SpaceFrom(name + rest, 0, true) == |name|
  {
    var line := name + rest;
    assert line[0] == name[0] && line[|name|] == rest[0];
    assert forall i :: 0 <= i < |name| ==> line[i] == name[i];
  }

  /** The words of a line that starts with a name: the rest of its first line is trimmed and parsed. */
  lemma WordsOf(name: string, pad: string, text: string)
    requires IsName(name) && IsPad(pad)
    ensures var v := ParseValue(Trim(pad + FirstLine(text)));
            ParseWords(name + pad + text) == if v.Value? then Assignment(name, v.text) else NoAssignment
  {
    var rest := pad + text;
    assert name + pad + text == name + rest && rest[0] == pad[0];
    WordSpan(name, rest);
    assert (name + rest)[..|name|] == name && (name + rest)[|name|..] == rest;
    FirstLineAppend(pad, text);
  }

  /** Only blanks may follow a quoted value. */
  lemma QuotedValue(value: string, junk: string)
    requires IsQuotable(value)
    ensures ParseValue(Quoted(value) + junk) == if AllBlank(junk) then Value(value) else NoValue
  {
    var r := Quoted(value) + junk;
    assert r[0] == '"' && r[|value| + 1] == '"';
    assert forall i :: 1 <= i <= |value| ==> r[i] == value[i - 1];
    assert Find(r, '"', 1) == |value| + 1;
    assert r[1..|value| + 1] == value && r[|value| + 2..] == junk;
    TrimEmptyIff(junk);
  }

  lemma QuotedWords(name: string, pad: string, value: string, tail: string)
    requires IsName(name) && IsPad(pad) && IsQuotable(value)
    ensures ParseWords(name + pad + (Quoted(value) + tail)) ==
            if AllBlank(FirstLine(tail)) then Assignment(name, value) else NoAssignment
  {
    WordsOf(name, pad, Quoted(value) + tail);
    FirstLineAppend(Quoted(value), tail);
    var line := FirstLine(tail);
    var kept := TrimTail(pad, Quoted(value), line);
    QuotedValue(value, kept);
    BlankSplit(line, kept);
  }

  lemma BlankSplit(line: string, kept: string)
    requires kept <= line && AllBlank(line[|kept|..])
    ensures AllBlank(line) <==> AllBlank(kept)
  {
    assert line == kept + line[|kept|..];
    assert forall i :: 0 <= i < |kept| ==> kept[i] == line[i];
    assert forall i :: |kept| <= i < |line| ==> line[i] == line[|kept|..][i - |kept|];
  }

  /** What decides over a quoted setting is what follows it: whatever the text is, the setting is read as it
      was if what is left of that text's first line without its comment is blank, and refused if not. */
  lemma TailDecides(name: string, width: nat, value: string, tail: string)
    requires IsName(name) && |name| < width && IsQuotable(value)
    ensures ParseAssignment(PrintSetting(name, width, value) + tail) ==
            if AllBlank(FirstLine(Uncommented(tail))) then Assignment(name, value) else NoAssignment
  {
    var pad, setting, rest := Spaces(width - |name|), PrintSetting(name, width, value), Uncommented(tail);
    SettingUncommented(name, pad, value, tail);
    assert setting[0] == name[0] && setting[|setting| - 1] == '"';
    var kept := TrimBack(setting, rest);
    Reassociate(name + pad, Quoted(value), kept);
    QuotedWords(name, pad, value, kept);
    assert rest == kept + rest[|kept|..];
    FirstLineBlank(kept, rest[|kept|..]);
  }

  lemma TailUncommented(gap: string, comment: string)
    requires IsTail(gap, comment)
    ensures Uncommented(gap + comment) == gap
  {
    var line := gap + comment;
    NoQuotes(gap);
    assert line[..|gap|] == gap;
    forall i | 0 <= i < |gap| ensures !IsComment(line, i) {
      assert line[i] == gap[i];
    }
    if comment == [] {
      assert CommentStart(line, 0) == |gap|;
    } else {
      assert line[|gap|] == comment[0] && line[|gap| + 1] == comment[1];
      assert IsComment(line, |gap|);
    }
  }

  /** A printed setting, bare or followed by blanks and a comment, is read back as it was. */
  lemma SettingRoundTrip(name: string, width: nat, value: string, gap: string, comment: string)
    requires IsName(name) && |name| < width && IsQuotable(value) && IsTail(gap, comment)
    ensures ParseAssignment(PrintSetting(name, width, value) + (gap + comment)) == Assignment(name, value)
  {
    TailDecides(name, width, value, gap + comment);
    TailUncommented(gap, comment);
  }

  // ---------------------------------------------------------------- and only those values

  /** What is read after a quote is quotable. */
  lemma QuotedIsQuotable(remainder: string)
    requires remainder != [] && remainder[0] == '"' && forall i :: 0 <= i < |remainder| ==> remainder[i] != '\n'
    ensures var v := ParseValue(remainder); v.Value? ==> IsQuotable(v.text)
  {
  }

  lemma WordsQuotable(name: string, pad: string, text: string)
    requires IsName(name) && IsPad(pad) && text != [] && text[0] == '"'
    ensures var a := ParseWords(name + pad + text); a.Assignment? ==> IsQuotable(a.value)
  {
    WordsOf(name, pad, text);
    var line := FirstLine(text);
    assert line == ['"'] + line[1..];
    var kept := TrimTail(pad, ['"'], line[1..]);
    assert forall i :: 0 <= i < |kept| ==> kept[i] == line[1 + i];
    QuotedIsQuotable(['"'] + kept);
  }

  lemma HeadUncommented(name: string, pad: string, text: string)
    requires IsName(name) && IsPad(pad) && text != [] && text[0] == '"'
    ensures var kept := Uncommented(name + pad + text); kept != [] && exists n :: 0 < n <= |text| && kept == name + pad + text[..n]
  {
    var head, line := name + pad, name + pad + text;
    HeadOk(name, pad);
    forall i | 0 <= i <= |head| ensures !IsComment(line, i) {
      assert line[i] == if i < |head| then head[i] else text[0];
      assert i + 1 < |head| ==> line[i + 1] == head[i + 1];
    }
    var n := CommentStart(line, 0) - |head|;
    assert line[..|head| + n] == head + text[..n];
  }

  /** Whatever value is printed, a value read back from its line is quotable. */
  lemma ReadIsQuotable(name: string, pad: string, text: string)
    requires IsName(name) && IsPad(pad) && text != [] && text[0] == '"'
    ensures var a := ParseAssignment(name + pad + text); a.Assignment? ==> IsQuotable(a.value)
  {
    HeadUncommented(name, pad, text);
    var n :| 0 < n <= |text| && Uncommented(name + pad + text) == name + pad + text[..n];
    var head := name + pad + ['"'];
    assert text[..n] == ['"'] + text[1..n];
    Reassociate(name + pad, ['"'], text[1..n]);
    assert head[0] == name[0];
    var kept := TrimBack(head, text[1..n]);
    Reassociate(name + pad, ['"'], kept);
    WordsQuotable(name, pad, ['"'] + kept);
  }

  /** The lines the plugin generates are read back exactly when the value is quotable: nothing tells an
      empty value from none, and a quote or a line end inside the value ends it. */
  lemma SettingRoundTripIff(name: string, width: nat, value: string)
    requires IsName(name) && |name| < width
    ensures ParseAssignment(PrintSetting(name, width, value)) == Assignment(name, value) <==> IsQuotable(value)
  {
    if IsQuotable(value) {
      SettingRoundTrip(name, width, value, [], []);
      assert PrintSetting(name, width, value) + ([] + []) == PrintSetting(name, width, value);
    }
    ReadIsQuotable(name, Spaces(width - |name|), Quoted(value));
  }

  // ---------------------------------------------------------------- bare values

  /** What may follow an unquoted value directly. */
  predicate EndsWord(text: string) { text == [] || SpaceOrTab(text[0]) || text[0] == '\n' }

  /** An unquoted value is one word. */
  lemma BareWord(word: string, junk: string)
    requires IsName(word) && (junk == [] || SpaceOrTab(junk[0]))
    ensures ParseValue(word + junk) == Value(word)
  {
    var r := word + junk;
    assert r[0] == word[0];
    assert forall i :: 0 <= i < |word| ==> r[i] == word[i];
    assert junk != [] ==> r[|word|] == junk[0];
    assert Earlier(Find(r, ' ', 0), Find(r, '\t', 0)) == |word|;
    assert r[..|word|] == word;
  }

  lemma BareWords(name: string, pad: string, word: string, tail: string)
    requires IsName(name) && IsName(word) && IsPad(pad) && EndsWord(tail)
    ensures ParseWords(name + pad + (word + tail)) == Assignment(name, word)
  {
    WordsOf(name, pad, word + tail);
    FirstLineAppend(word, tail);
    var kept := TrimTail(pad, word, FirstLine(tail));
    BareWord(word, kept);
  }

  lemma BareUncommented(name: string, pad: string, word: string, tail: string)
    requires IsName(name) && IsName(word) && IsPad(pad) && EndsWord(tail)
    ensures Uncommented(name + pad + word + tail) == name + pad + word + Uncommented(tail)
  {
    var head, line := name + pad + word, name + pad + word + tail;
    var h := |name + pad|;
    NoQuotes(head);
    forall i | 0 <= i < |head| ensures !IsComment(line, i) {
      if i < |name| {
        assert line[i] == name[i] && line[i + 1] == if i + 1 < |name| then name[i + 1] else pad[0];
      } else if i < h {
        assert line[i] == pad[i - |name|];
      } else {
        assert line[i] == word[i - h];
        assert i + 1 < |line| ==> line[i + 1] == if i + 1 < |head| then word[i + 1 - h] else tail[0];
      }
    }
    UncommentedAppend(head, tail);
  }

  /** An unquoted value is the word after the name, whatever follows behind a space, a tab or a line end. */
  lemma BareValue(name: string, pad: string, word: string, tail: string)
    requires IsName(name) && IsName(word) && IsPad(pad) && EndsWord(tail)
    ensures ParseAssignment(name + pad + word + tail) == Assignment(name, word)
  {
    BareUncommented(name, pad, word, tail);
    var head := name + pad + word;
    assert head[0] == name[0] && head[|head| - 1] == word[|word| - 1];
    var kept := TrimBack(head, Uncommented(tail));
    Reassociate(name + pad, word, kept);
    BareWords(name, pad, word, kept);
  }

  lemma Reassociate(a: string, b: string, c: string)
    ensures a + b + c == a + (b + c)
  {
  }

  // ---------------------------------------------------------------- lines without an assignment

  /** A line without a second word is no assignment. */
  lemma OneWord(word: string)
    requires forall i :: 0 <= i < |word| ==> !Space(word[i])
    ensures ParseWords(word) == NoAssignment
  {
    if word != [] {
      assert SpaceFrom(word, 0, false) == 0 && SpaceFrom(word, 0, true) == |word|;
      assert word[|word|..] == [];
    }
  }

  lemma {:induction false} TrimWord(word: string, gap: string)
    requires (forall i :: 0 <= i < |word| ==> !Space(word[i])) && AllBlank(gap)
    ensures Trim(word + gap) == word
    decreases |gap|
  {
    var text := word + gap;
    if gap == [] {
      assert text == word;
    } else if word == [] {
      assert text == gap;
      TrimEmptyIff(gap);
    } else {
      assert text[0] == word[0] && text[..|text| - 1] == word + gap[..|gap| - 1];
      TrimWord(word, gap[..|gap| - 1]);
    }
  }

  /** An empty or blank line, or one with nothing but a comment, is no assignment. */
  lemma NothingToRead(gap: string, comment: string)
    requires IsTail(gap, comment)
    ensures ParseAssignment(gap + comment) == NoAssignment
  {
    TailUncommented(gap, comment);
    TrimWord([], gap);
    assert [] + gap == gap;
    OneWord([]);
  }

  lemma NameUncommented(name: string, tail: string)
    requires IsName(name) && (tail == [] || tail[0] != '/' || name[|name| - 1] != '/')
    ensures Uncommented(name + tail) == name + Uncommented(tail)
  {
    NoQuotes(name);
    forall i | 0 <= i < |name| ensures !IsComment(name + tail, i) {
      assert (name + tail)[i] == name[i];
      assert i + 1 < |name + tail| ==> (name + tail)[i + 1] == if i + 1 < |name| then name[i + 1] else tail[0];
    }
    UncommentedAppend(name, tail);
  }

  /** Nor is a name without a value, bare or with blanks and a comment behind it. */
  lemma NameAlone(name: string, gap: string, comment: string)
    requires IsName(name) && IsTail(gap, comment)
    ensures ParseAssignment(name + (gap + comment)) == NoAssignment
  {
    var tail, n := gap + comment, |name|;
    if tail == [] || tail[0] != '/' || name[n - 1] != '/' {
      NameUncommented(name, tail);
      TailUncommented(gap, comment);
      TrimWord(name, gap);
      OneWord(name);
    } else {
      // The last slash of the name and the first of the comment already start one.
      var line := name + tail;
      assert gap == [];
      assert line[n - 1] == '/' && line[n] == '/' && line[..n - 1] == name[..n - 1];
      NoQuotes(name[..n - 1]);
      assert IsComment(line, n - 1);
      forall i | 0 <= i < n - 1 ensures !IsComment(line, i) {
        assert line[i] == name[i] && line[i + 1] == name[i + 1];
      }
      assert CommentStart(line, 0) == n - 1;
      TrimWord(name[..n - 1], []);
      assert name[..n - 1] + [] == name[..n - 1];
      OneWord(name[..n - 1]);
    }
  }
}
