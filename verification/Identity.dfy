/** The identity texts of the gzip cache (src/compression_cache.cpp) and the entity tags of the
    server (src/fastdl_server.cpp): what each text is, and that no two different things share one. */
module Identity {
  import opened Basics
  import opened Numerals

  /** The parts of a compression source that identify one version of one file. */
  datatype SourceId = SourceId(path: string, size: nat, modified: nat, file: nat)

  function SourceIdentity(source: SourceId): (text: string) {
    source.path + ['\n'] + Decimal(source.size) + ['\n'] +
    Decimal(source.modified) + ['\n'] + Decimal(source.file) + ['\n']
  }

  function SkipIdentity(source: SourceId, maxBytes: nat): (text: string) {
    SourceIdentity(source) + "skip-policy=5-percent,max-bytes=" + Decimal(maxBytes) + ['\n']
  }

  /** Only `size`, `modified` and `file` enter the tag; the path is the request's own. */
  function MakeEtag(source: SourceId, gzip: bool): (tag: string) {
    ['"'] + Hex(source.size) + ['-'] + Hex(source.modified) + ['-'] + Hex(source.file) +
    GzipMark(gzip) + ['"']
  }

  function GzipMark(gzip: bool): string {
    if gzip then "-gz" else ""
  }

  /** A source identity determines path, size, modification time and file id, although the path
      may itself contain newlines and digits. */
  lemma SourceIdentityInjective(a: SourceId, b: SourceId)
    requires SourceIdentity(a) == SourceIdentity(b)
    ensures a == b
  {
    var a1 := a.path + ['\n'] + Decimal(a.size);
    var b1 := b.path + ['\n'] + Decimal(b.size);
    var a2 := a1 + ['\n'] + Decimal(a.modified);
    var b2 := b1 + ['\n'] + Decimal(b.modified);
    DropLast(a2 + ['\n'] + Decimal(a.file), b2 + ['\n'] + Decimal(b.file), '\n', '\n');
    NumeralField(a2, a.file, b2, b.file, 10, '\n');
    NumeralField(a1, a.modified, b1, b.modified, 10, '\n');
    NumeralField(a.path, a.size, b.path, b.size, 10, '\n');
  }

  /** The text in front of the budget in a skip identity. */
  function SkipStem(source: SourceId): (text: string)
    ensures |text| > 0 && text[|text| - 1] == '='
  {
    SourceIdentity(source) + "skip-policy=5-percent,max-bytes="
  }

  lemma SkipIdentityShape(source: SourceId, maxBytes: nat)
    ensures var stem := SkipStem(source);
            SkipIdentity(source, maxBytes) == stem[..|stem| - 1] + ['='] + Decimal(maxBytes) + ['\n']
  {
    var stem := SkipStem(source);
    assert stem == stem[..|stem| - 1] + ['='];
  }

  /** Skip identities determine the source and the byte budget they were written under. */
  lemma SkipIdentityInjective(a: SourceId, m: nat, b: SourceId, n: nat)
    requires SkipIdentity(a, m) == SkipIdentity(b, n)
    ensures a == b && m == n
  {
    SkipIdentityShape(a, m);
    SkipIdentityShape(b, n);
    var sa, sb := SkipStem(a), SkipStem(b);
    DropLast(sa[..|sa| - 1] + ['='] + Decimal(m), sb[..|sb| - 1] + ['='] + Decimal(n), '\n', '\n');
    NumeralField(sa[..|sa| - 1], m, sb[..|sb| - 1], n, 10, '=');
    assert sa == sb;
    assert |SourceIdentity(a)| == |SourceIdentity(b)|;
    assert sa[..|SourceIdentity(a)|] == SourceIdentity(a);
    assert sb[..|SourceIdentity(b)|] == SourceIdentity(b);
    SourceIdentityInjective(a, b);
  }

  /** No source identity is a skip identity, so a `.meta` text never passes for a `.skip` text. */
  lemma SourceNeverSkip(a: SourceId, b: SourceId, maxBytes: nat)
    ensures SourceIdentity(a) != SkipIdentity(b, maxBytes)
  {
    if SourceIdentity(a) == SkipIdentity(b, maxBytes) {
      SkipIdentityShape(b, maxBytes);
      var stem := SkipStem(b);
      var front := a.path + ['\n'] + Decimal(a.size) + ['\n'] + Decimal(a.modified);
      var cut := stem[..|stem| - 1];
      DropLast(front + ['\n'] + Decimal(a.file), cut + ['='] + Decimal(maxBytes), '\n', '\n');
      // The last non-digit of the one text is a newline, of the other an equals sign.
      SplitAtLastNonDigit(front, '\n', Decimal(a.file), cut, '=', Decimal(maxBytes), 10);
    }
  }

  /** The text of a tag between its quotes and without the gzip mark. */
  function EtagBody(source: SourceId): (body: string)
    ensures |body| > 0 && IsDigit(body[|body| - 1], 16)
  {
    var front := Hex(source.size) + ['-'] + Hex(source.modified) + ['-'];
    var body := front + Hex(source.file);
    assert body[|body| - 1] == Hex(source.file)[|Hex(source.file)| - 1];
    body
  }

  lemma EtagBodyInjective(a: SourceId, b: SourceId)
    requires EtagBody(a) == EtagBody(b)
    ensures a.size == b.size && a.modified == b.modified && a.file == b.file
  {
    var a1, b1 := Hex(a.size) + ['-'] + Hex(a.modified), Hex(b.size) + ['-'] + Hex(b.modified);
    assert EtagBody(a) == a1 + ['-'] + Hex(a.file) && EtagBody(b) == b1 + ['-'] + Hex(b.file);
    NumeralField(a1, a.file, b1, b.file, 16, '-');
    NumeralField(Hex(a.size), a.modified, Hex(b.size), b.modified, 16, '-');
  }

  /** Texts ending in a hexadecimal digit, marked or not, determine the text and the mark. */
  lemma MarkInjective(x: string, gx: bool, y: string, gy: bool)
    requires |x| > 0 && IsDigit(x[|x| - 1], 16)
    requires |y| > 0 && IsDigit(y[|y| - 1], 16)
    requires x + GzipMark(gx) == y + GzipMark(gy)
    ensures x == y && gx == gy
  {
    var s, t := x + GzipMark(gx), y + GzipMark(gy);
    assert s[|s| - 1] == if gx then 'z' else x[|x| - 1];
    assert t[|t| - 1] == if gy then 'z' else y[|y| - 1];
    assert s[..|x|] == x && t[..|y|] == y;
  }

  /** Entity tags separate sizes, modification times, file ids and the two representations. */
  lemma EtagInjective(a: SourceId, ga: bool, b: SourceId, gb: bool)
    requires MakeEtag(a, ga) == MakeEtag(b, gb)
    ensures a.size == b.size && a.modified == b.modified && a.file == b.file && ga == gb
  {
    EtagShape(a, ga);
    EtagShape(b, gb);
    MarkInjective(EtagBody(a), ga, EtagBody(b), gb);
    EtagBodyInjective(a, b);
  }

  lemma EtagShape(a: SourceId, gzip: bool)
    ensures |MakeEtag(a, gzip)| >= 2
    ensures MakeEtag(a, gzip)[1..|MakeEtag(a, gzip)| - 1] == EtagBody(a) + GzipMark(gzip)
  {
    assert MakeEtag(a, gzip) == ['"'] + (EtagBody(a) + GzipMark(gzip)) + ['"'];
  }

  /** A tag is a quoted string without a quote or blank inside, an entity-tag of section 8.8.3 of RFC 9110. */
  lemma EtagWellFormed(a: SourceId, gzip: bool)
    ensures var tag := MakeEtag(a, gzip);
            && |tag| >= 2 && tag[0] == '"' && tag[|tag| - 1] == '"'
            && forall i :: 0 < i < |tag| - 1 ==> '#' <= tag[i] <= '~'
  {
    var tag, body := MakeEtag(a, gzip), TagBody(Hex(a.size), Hex(a.modified), Hex(a.file), GzipMark(gzip));
    assert tag == ['"'] + body + ['"'];
    forall i | 0 < i < |tag| - 1 ensures '#' <= tag[i] <= '~' {
      assert tag[i] == body[i - 1];
      BodyChars(Hex(a.size), Hex(a.modified), Hex(a.file), GzipMark(gzip), i - 1);
    }
  }

  function TagBody(x: string, y: string, z: string, mark: string): (body: string) {
    x + ['-'] + y + ['-'] + z + mark
  }

  lemma BodyChars(x: string, y: string, z: string, mark: string, i: nat)
    requires AllDigits(x, 16) && AllDigits(y, 16) && AllDigits(z, 16) && (mark == "" || mark == "-gz")
    requires i < |TagBody(x, y, z, mark)|
    ensures '#' <= TagBody(x, y, z, mark)[i] <= '~'
  {
    var a := |x|;
    var b := a + 1 + |y|;
    var c := b + 1 + |z|;
    var all := TagBody(x, y, z, mark);
    if i < a {
      assert all[i] == x[i] && IsDigit(x[i], 16);
    } else if a < i < b {
      assert all[i] == y[i - a - 1] && IsDigit(y[i - a - 1], 16);
    } else if b < i < c {
      assert all[i] == z[i - b - 1] && IsDigit(z[i - b - 1], 16);
    } else if i >= c {
      assert all[i] == mark[i - c];
    } else {
      assert all[i] == '-';
    }
  }

  /** The path of a source is the first line of its identity, where maintenance looks for it, unless the path
      itself has a line end. */
  lemma PathIsFirstLine(a: SourceId, rest: string)
    requires '\n' !in a.path
    ensures var text := SourceIdentity(a) + rest; text[..Find(text, '\n', 0)] == a.path
  {
    var text := SourceIdentity(a) + rest;
    assert text == a.path + (['\n'] + Decimal(a.size) + ['\n'] + Decimal(a.modified) + ['\n'] + Decimal(a.file) + ['\n'] + rest);
    assert text[|a.path|] == '\n';
    assert forall i :: 0 <= i < |a.path| ==> text[i] == a.path[i];
    assert Find(text, '\n', 0) == |a.path|;
  }
}
