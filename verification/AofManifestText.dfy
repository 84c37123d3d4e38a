/**
  The bytes of the AOF manifest (src/aof.c): lines as aofInfoFormat prints them, and
  the loader that reads them back with fgets, sdstrim and sdssplitargs.
*/
module AofManifestText {
  import opened Wrappers
  import opened Sds
  import opened AofManifest
  import Decimal
  import AofCodec

  /** MANIFEST_MAX_LINE */
  const MAX_LINE: nat := 1024

  // ------------------------------------------------------------------ printing

  /** The file name as a word of the line. */
  function Token(name: string): string {
    if NeedsRepr(name) then Repr(name) else name
  }

  /** "%s %s %s %lld %s %c" with the three keys. */
  function Spaced(name: string, n: int, kind: char): string {
    "file" + (" " + (name + (" " + ("seq" + (" " + (PrintSeq(n) + (" " + ("type" + (" " + [kind])))))))))
  }

  function Words(ai: Info): string {
    Spaced(Token(ai.name), ai.seqno, ai.kind)
  }

  /** aofInfoFormat */
  function Print(ai: Info): string {
    Words(ai) + "\n"
  }

  method AofInfoFormat(buf: string, ai: Info) returns (ret: string)
    ensures ret == buf + Print(ai)
  {
    hide Spaced;
    var filename := ai.name;
    var needs := Sdsneedsrepr(ai.name);
    if needs {
      filename := Sdscatrepr("", ai.name);
      assert "" + Repr(ai.name) == Repr(ai.name);
    }
    ret := buf + (Spaced(filename, ai.seqno, ai.kind) + "\n");
  }

  function PrintAll(s: seq<Info>): string {
    if s == [] then "" else Print(s[0]) + PrintAll(s[1..])
  }

  lemma {:induction false} PrintAllSplits(a: seq<Info>, b: seq<Info>)
    ensures PrintAll(a + b) == PrintAll(a) + PrintAll(b)
  {
    if a == [] {
      assert a + b == b;
    } else {
      assert (a + b)[1..] == a[1..] + b;
      PrintAllSplits(a[1..], b);
    }
  }

  method FormatList(start: string, s: seq<Info>) returns (buf: string)
    ensures buf == start + PrintAll(s)
  {
    hide Print;
    buf := start;
    assert buf + "" == buf;
    for i := 0 to |s|
      invariant buf == start + PrintAll(s[..i])
    {
      buf := AofInfoFormat(buf, s[i]);
      assert s[..i + 1] == s[..i] + [s[i]];
      PrintAllSplits(s[..i], [s[i]]);
      assert PrintAll([s[i]]) == Print(s[i]);
    }
    assert s[..|s|] == s;
  }

  /** getAofManifestAsString: BASE first, then HISTORY, then INCR. */
  method GetAofManifestAsString(am: Manifest) returns (buf: string)
    ensures buf == PrintAll(Entries(am))
  {
    hide Print;
    buf := "";
    ghost var base := if am.base.Some? then [am.base.value] else [];
    if am.base.Some? {
      buf := AofInfoFormat(buf, am.base.value);
      assert base[1..] == [];
    }
    assert buf == PrintAll(base);
    buf := FormatList(buf, am.history);
    buf := FormatList(buf, am.incr);
    PrintAllSplits(am.history, am.incr);
    PrintAllSplits(base, am.history + am.incr);
  }

  // ------------------------------------------------------------------- loading

  /** What C takes a buffer for. */
  function CString(s: string): string {
    if s == "" || s[0] == '\0' then "" else [s[0]] + CString(s[1..])
  }

  function CStrings(words: seq<string>): (r: seq<string>)
    ensures |r| == |words| && forall i :: 0 <= i < |r| ==> r[i] == CString(words[i])
  {
    seq(|words|, i requires 0 <= i < |words| => CString(words[i]))
  }

  /** One line, as fgets left it. */
  function ParseBuffer(buf: string): Result<Info> {
    var s := CString(buf);
    if '\n' !in s then Err(LineTooLong)
    else if Trim(s) == "" then Err(BadFormat)
    else
      match SplitArgs(Trim(s))
      case None => Err(BadFormat)
      case Some(argv) => ParseLine(CStrings(argv))
  }

  function LoadFrom(f: string, am: Manifest, maxseq: int): Result<Manifest>
    decreases |f|
  {
    if f == "" then Ok(am)
    else
      var n := |AofCodec.Fgets(f, MAX_LINE)|;
      if f[0] == '#' then LoadFrom(f[n..], am, maxseq)
      else
        match ParseBuffer(f[..n])
        case Err(e) => Err(e)
        case Ok(ai) =>
          match Place(am, maxseq, ai)
          case Err(e) => Err(e)
          case Ok(p) => LoadFrom(f[n..], p.0, p.1)
  }

  function Load(f: string): Result<Manifest> {
    if f == "" then Err(EmptyFile) else LoadFrom(f, EMPTY, 0)
  }

  /** aofLoadManifestFromFile: the loop over lines, leaving at the first error. */
  method LoadManifestFromFile(f: string) returns (r: Result<Manifest>)
    ensures r == Load(f)
  {
    hide ParseBuffer, Place;
    var am, maxseq, linenum, rest := EMPTY, 0, 0, f;
    while true
      invariant linenum == 0 <==> rest == f
      invariant LoadFrom(rest, am, maxseq) == LoadFrom(f, EMPTY, 0)
      decreases |rest|
    {
      var n := |AofCodec.Fgets(rest, MAX_LINE)|;
      var buf := rest[..n];
      if n == 0 {
        if linenum == 0 {
          return Err(EmptyFile);
        }
        return Ok(am);
      }
      linenum, rest := linenum + 1, rest[n..];
      if buf[0] == '#' {
        continue;
      }
      match ParseBuffer(buf)
      case Err(e) =>
        return Err(e);
      case Ok(ai) =>
        match Place(am, maxseq, ai) {
          case Err(e) => return Err(e);
          case Ok(p) => am, maxseq := p.0, p.1;
        }
    }
  }

  /** Whatever the file says, an accepted manifest has its INCR files in order. */
  lemma {:induction false} LoadedInOrder(f: string, am: Manifest, maxseq: int)
    requires Increasing(am.incr) && maxseq >= 0 && am.incrSeq == maxseq
    requires forall i :: 0 <= i < |am.incr| ==> am.incr[i].seqno <= maxseq
    requires LoadFrom(f, am, maxseq).Ok?
    ensures var r := LoadFrom(f, am, maxseq).value;
            Increasing(r.incr) && forall i :: 0 <= i < |r.incr| ==> r.incr[i].seqno <= r.incrSeq
    decreases |f|
  {
    hide ParseBuffer;
    if f != "" {
      var n := |AofCodec.Fgets(f, MAX_LINE)|;
      if f[0] == '#' {
        LoadedInOrder(f[n..], am, maxseq);
      } else {
        var p := Place(am, maxseq, ParseBuffer(f[..n]).value).value;
        LoadedInOrder(f[n..], p.0, p.1);
      }
    }
  }

  // ---------------------------------------------------------------- round trip

  /** sdsneedsrepr does not look for the single quote, which sdssplitargs takes for one. */
  predicate Quotable(name: string) {
    NeedsRepr(name) || '\'' !in name
  }

  /** A file name: not empty, and a C string. */
  predicate IsName(name: string) {
    name != "" && Bytes(name) && NoNul(name)
  }

  /** An entry that can be in a manifest. */
  predicate Printable(ai: Info) {
    ai.seqno != 0 && (ai.kind == 'b' || ai.kind == 'h' || ai.kind == 'i') && IsBaseName(ai.name) && IsName(ai.name)
  }

  lemma TokenSplits(name: string, rest: string)
    requires IsName(name) && Quotable(name)
    ensures SplitArgs(Token(name) + (" " + rest)) == Prepend([name], SplitArgs(rest))
  {
    hide SplitArgs;
    if NeedsRepr(name) {
      SplitRepr(name, rest);
    } else {
      assert forall i :: 0 <= i < |name| ==> !NeedsEscape(name[i]) && name[i] in name;
      SplitWord(name, rest);
    }
  }

  lemma PrintSeqClean(n: int)
    ensures Clean(PrintSeq(n)) && PrintSeq(n) != "" && !IsSpace(PrintSeq(n)[0])
  {
  }

  lemma WordsSplit(ai: Info)
    requires Printable(ai) && Quotable(ai.name)
    ensures SplitArgs(Words(ai)) == Some(FormatInfo(ai))
  {
    hide SplitArgs, Token, PrintSeq;
    var w5 := [ai.kind];
    var w4 := "type" + (" " + w5);
    var w3 := PrintSeq(ai.seqno) + (" " + w4);
    var w2 := "seq" + (" " + w3);
    var w1 := Token(ai.name) + (" " + w2);
    PrintSeqClean(ai.seqno);
    SplitWord(w5, "");
    SplitWord("type", w5);
    SplitWord(PrintSeq(ai.seqno), w4);
    SplitWord("seq", w3);
    TokenSplits(ai.name, w2);
    SplitWord("file", w1);
    assert FormatInfo(ai) == ["file"] + ([ai.name] + (["seq"] + ([PrintSeq(ai.seqno)] + (["type"] + [[ai.kind]]))));
  }

  // A printed line, read back: nothing in it but its end is a newline or a '\0'.

  ghost predicate OneLine(s: string) {
    '\n' !in s && NoNul(s)
  }

  lemma OneLineJoin(a: string, b: string)
    requires OneLine(a) && OneLine(b)
    ensures OneLine(a + b)
  {}

  lemma {:induction false} EscapedLine(s: string)
    requires Bytes(s)
    ensures OneLine(EscapeAll(s))
  {
    if s != "" {
      EscapedLine(s[1..]);
      assert OneLine(Escape(s[0]));
      OneLineJoin(Escape(s[0]), EscapeAll(s[1..]));
    }
  }

  lemma TokenLine(name: string)
    requires IsName(name)
    ensures OneLine(Token(name))
  {
    if NeedsRepr(name) {
      EscapedLine(name);
      OneLineJoin("\"", EscapeAll(name));
      OneLineJoin("\"" + EscapeAll(name), "\"");
    } else {
      assert forall i :: 0 <= i < |name| ==> !NeedsEscape(name[i]);
    }
  }

  lemma WordsLine(ai: Info)
    requires Printable(ai)
    ensures OneLine(Words(ai))
  {
    hide Token, PrintSeq, OneLine;
    assert OneLine(" ") && OneLine("file") && OneLine("seq") && OneLine("type") && OneLine([ai.kind]) by {
      ShortLines(ai.kind);
    }
    assert OneLine(PrintSeq(ai.seqno)) by {
      PrintSeqLine(ai.seqno);
    }
    TokenLine(ai.name);
    OneLineJoin(" ", [ai.kind]);
    OneLineJoin("type", " " + [ai.kind]);
    var w4 := "type" + (" " + [ai.kind]);
    Joined(PrintSeq(ai.seqno), w4);
    var w3 := PrintSeq(ai.seqno) + (" " + w4);
    Joined("seq", w3);
    Joined(Token(ai.name), "seq" + (" " + w3));
    Joined("file", Token(ai.name) + (" " + ("seq" + (" " + w3))));
  }

  lemma ShortLines(kind: char)
    requires kind == 'b' || kind == 'h' || kind == 'i'
    ensures OneLine(" ") && OneLine("file") && OneLine("seq") && OneLine("type") && OneLine([kind])
  {}

  lemma PrintSeqLine(n: int)
    ensures OneLine(PrintSeq(n))
  {}

  lemma Joined(a: string, b: string)
    requires OneLine(a) && OneLine(b)
    ensures OneLine(a + (" " + b))
  {}

  /** fgets stops behind the newline, or when the buffer is full. */
  lemma {:induction false} FgetsLine(line: string, rest: string, max: nat)
    requires '\n' !in line
    ensures AofCodec.Fgets(line + ("\n" + rest), max) == if |line| < max then line + "\n" else line[..max]
    decreases |line|
  {
    var f := line + ("\n" + rest);
    if line == "" {
      assert f[0] == '\n';
    } else if max > 0 {
      assert f[1..] == line[1..] + ("\n" + rest);
      FgetsLine(line[1..], rest, max - 1);
    }
  }

  lemma {:induction false} CStringAll(s: string)
    requires NoNul(s)
    ensures CString(s) == s
  {
    if s != "" {
      CStringAll(s[1..]);
    }
  }

  lemma TrimLine(line: string)
    requires line != "" && !IsTrimmed(line[0]) && !IsTrimmed(line[|line| - 1])
    ensures Trim(line + "\n") == line
  {
    var s := line + "\n";
    assert s[0] == line[0] && s[|s| - 1] == '\n' && s[..|s| - 1] == line;
    assert TrimRight(line) == line;
  }

  /** A line too long for the buffer is refused. */
  lemma LongLine(ai: Info, rest: string)
    requires Printable(ai) && |Print(ai)| > MAX_LINE
    ensures var f := Print(ai) + rest; ParseBuffer(AofCodec.Fgets(f, MAX_LINE)) == Err(LineTooLong)
  {
    hide Words;
    WordsLine(ai);
    var f := Print(ai) + rest;
    assert f == Words(ai) + ("\n" + rest);
    FgetsLine(Words(ai), rest, MAX_LINE);
    var buf := f[..MAX_LINE];
    assert buf == Words(ai)[..MAX_LINE];
    CStringAll(buf);
  }

  /** A line that fits is read whole, */
  lemma ReadShortLine(ai: Info, rest: string)
    requires Printable(ai) && |Print(ai)| <= MAX_LINE
    ensures var f := Print(ai) + rest; AofCodec.Fgets(f, MAX_LINE) == Print(ai) && f[|Print(ai)|..] == rest
  {
    hide Words, AofCodec.Fgets;
    WordsLine(ai);
    assert Print(ai) + rest == Words(ai) + ("\n" + rest);
    FgetsLine(Words(ai), rest, MAX_LINE);
  }

  /** and parsed by its words. */
  lemma ParseShortLine(ai: Info)
    requires Printable(ai)
    ensures ParseBuffer(Print(ai)) ==
            match SplitArgs(Words(ai)) case None => Err(BadFormat) case Some(argv) => ParseLine(CStrings(argv))
  {
    hide Words, SplitArgs, ParseLine, CString, CStrings, IsTrimmed, Trim;
    WordsLine(ai);
    WordsEnds(ai);
    assert NoNul(Print(ai)) && '\n' in Print(ai) by {
      assert Print(ai)[|Print(ai)| - 1] == '\n';
    }
    CStringAll(Print(ai));
    TrimLine(Words(ai));
  }

  lemma WordsEnds(ai: Info)
    requires Printable(ai)
    ensures var w := Words(ai); w != "" && w[0] == 'f' && !IsTrimmed(w[0]) && !IsTrimmed(w[|w| - 1])
  {
    assert Words(ai)[|Words(ai)| - 1] == ai.kind;
  }

  /** A name that can be quoted comes back. */
  lemma QuotableLine(ai: Info)
    requires Printable(ai) && |Print(ai)| <= MAX_LINE && Quotable(ai.name)
    ensures ParseBuffer(Print(ai)) == Ok(ai)
  {
    hide SplitArgs, ParseLine, ParseBuffer, Words, Print;
    ParseShortLine(ai);
    WordsSplit(ai);
    var argv := FormatInfo(ai);
    forall i | 0 <= i < |argv|
      ensures CString(argv[i]) == argv[i]
    {
      assert NoNul(argv[i]) by {
        PrintSeqLine(ai.seqno);
      }
      CStringAll(argv[i]);
    }
    assert CStrings(argv) == argv;
    ParseFormat(ai);
  }

  /** A name that cannot is not in the result, if there is one. */
  lemma UnquotableLine(ai: Info)
    requires Printable(ai) && |Print(ai)| <= MAX_LINE && !Quotable(ai.name)
    ensures var r := ParseBuffer(Print(ai)); r.Ok? ==> '\'' !in r.value.name
  {
    hide SplitArgs, ParseLine, ParseBuffer, Words, Print;
    ParseShortLine(ai);
    assert NoEscapes(Words(ai)) by {
      PlainWords(ai);
    }
    SplitDrops(Words(ai));
    if SplitArgs(Words(ai)).Some? {
      var argv := SplitArgs(Words(ai)).value;
      forall i | 0 <= i < |argv|
        ensures '\'' !in CStrings(argv)[i]
      {
        CStringPart(argv[i]);
      }
      NameIsWord(CStrings(argv));
    }
  }

  lemma PlainWords(ai: Info)
    requires Printable(ai) && !NeedsRepr(ai.name)
    ensures NoEscapes(Words(ai))
  {
    assert forall i :: 0 <= i < |ai.name| ==> !NeedsEscape(ai.name[i]);
    assert NoEscapes(ai.name) && NoEscapes(PrintSeq(ai.seqno));
    hide PrintSeq;
    var w4 := "type" + (" " + [ai.kind]);
    var w3 := PrintSeq(ai.seqno) + (" " + w4);
    JoinedPlain("type", [ai.kind]);
    JoinedPlain(PrintSeq(ai.seqno), w4);
    JoinedPlain("seq", w3);
    JoinedPlain(ai.name, "seq" + (" " + w3));
    JoinedPlain("file", ai.name + (" " + ("seq" + (" " + w3))));
  }

  lemma JoinedPlain(a: string, b: string)
    requires NoEscapes(a) && NoEscapes(b)
    ensures NoEscapes(a + (" " + b))
  {}

  lemma {:induction false} CStringPart(s: string)
    ensures forall c :: c in CString(s) ==> c in s
  {
    if s != "" && s[0] != '\0' {
      CStringPart(s[1..]);
    }
  }

  lemma {:induction false} NameFromPairs(words: Line, i: nat, d: Draft)
    requires |words| % 2 == 0 && i % 2 == 0 && i <= |words|
    ensures var r := ParsePairs(words, i, d);
            r.Ok? && r.value.name.Some? ==> r.value.name == d.name || r.value.name.value in words
    decreases |words| - i
  {
    hide SameIgnoringCase, IsBaseName;
    if i < |words| {
      assert words[i + 1] in words;
      NameFromPairs(words, i + 2, d.(name := Some(words[i + 1])));
      NameFromPairs(words, i + 2, d.(seqno := Decimal.Atoi(words[i + 1])));
      NameFromPairs(words, i + 2, d.(kind := if words[i + 1] == [] then '\0' else words[i + 1][0]));
      NameFromPairs(words, i + 2, d);
    }
  }

  lemma NameIsWord(words: Line)
    ensures ParseLine(words).Ok? ==> ParseLine(words).value.name in words
  {
    hide ParsePairs;
    if |words| % 2 == 0 {
      NameFromPairs(words, 0, Draft(None, 0, '\0'));
    }
  }

  /** What follows once a line is parsed. */
  function LoadParsed(line: Result<Info>, rest: string, am: Manifest, maxseq: int): Result<Manifest> {
    match line
    case Err(e) => Err(e)
    case Ok(ai) =>
      match Place(am, maxseq, ai)
      case Err(e) => Err(e)
      case Ok(p) => LoadFrom(rest, p.0, p.1)
  }

  /** One printed line, then the rest of the file. */
  lemma LoadLine(ai: Info, rest: string, am: Manifest, maxseq: int)
    requires Printable(ai)
    ensures LoadFrom(Print(ai) + rest, am, maxseq)
            == if |Print(ai)| > MAX_LINE then Err(LineTooLong) else LoadParsed(ParseBuffer(Print(ai)), rest, am, maxseq)
  {
    hide ParseBuffer, Place, AofCodec.Fgets;
    var f := Print(ai) + rest;
    assert f[0] == 'f';
    if |Print(ai)| > MAX_LINE {
      LongLine(ai, rest);
    } else {
      ReadShortLine(ai, rest);
    }
  }

  /** The lines that a manifest can be read back from. */
  predicate Readable(ai: Info) {
    |Print(ai)| <= MAX_LINE && Quotable(ai.name)
  }

  lemma {:induction false} LoadReadable(s: seq<Info>, am: Manifest, maxseq: int)
    requires forall i :: 0 <= i < |s| ==> Printable(s[i]) && Readable(s[i])
    requires PlaceAll(am, maxseq, s).Ok?
    ensures LoadFrom(PrintAll(s), am, maxseq) == Ok(PlaceAll(am, maxseq, s).value.0)
    decreases s
  {
    hide LoadFrom, Print, ParseBuffer, Place, Printable, Quotable;
    if s == [] {
      LoadNothing(am, maxseq);
    } else {
      assert Readable(s[0]);
      LoadLine(s[0], PrintAll(s[1..]), am, maxseq);
      QuotableLine(s[0]);
      var p := Place(am, maxseq, s[0]).value;
      LoadReadable(s[1..], p.0, p.1);
    }
  }

  lemma LoadNothing(am: Manifest, maxseq: int)
    ensures LoadFrom("", am, maxseq) == Ok(am)
  {}

  predicate QuotableNames(s: seq<Info>) {
    forall i :: 0 <= i < |s| ==> Quotable(s[i].name)
  }

  predicate QuotableManifest(am: Manifest) {
    (am.base.Some? ==> Quotable(am.base.value.name)) && QuotableNames(am.history) && QuotableNames(am.incr)
  }

  lemma PlaceQuotable(am: Manifest, maxseq: int, ai: Info)
    requires QuotableManifest(am) && Quotable(ai.name) && Place(am, maxseq, ai).Ok?
    ensures QuotableManifest(Place(am, maxseq, ai).value.0)
  {
    hide Quotable;
  }

  /** Whatever becomes of other names, they are not loaded, and no line is too long. */
  lemma {:induction false} LoadedQuotable(s: seq<Info>, am: Manifest, maxseq: int)
    requires QuotableManifest(am) && LoadFrom(PrintAll(s), am, maxseq).Ok?
    requires forall i :: 0 <= i < |s| ==> Printable(s[i])
    ensures forall i :: 0 <= i < |s| ==> |Print(s[i])| <= MAX_LINE
    ensures QuotableManifest(LoadFrom(PrintAll(s), am, maxseq).value)
    decreases s
  {
    hide LoadFrom, Print, ParseBuffer, Place, Printable, QuotableManifest;
    if s == [] {
      LoadNothing(am, maxseq);
    } else {
      LoadLine(s[0], PrintAll(s[1..]), am, maxseq);
      var ai := ParseBuffer(Print(s[0])).value;
      if Quotable(s[0].name) {
        QuotableLine(s[0]);
      } else {
        UnquotableLine(s[0]);
      }
      PlaceQuotable(am, maxseq, ai);
      var p := Place(am, maxseq, ai).value;
      LoadedQuotable(s[1..], p.0, p.1);
      assert forall i :: 0 < i < |s| ==> s[i] == s[1..][i - 1];
    }
  }

  /**
    The printed manifest is read back as it was if and only if every line fits in the
    buffer and no name has a single quote without also having something that
    sdsneedsrepr does look for.
  */
  lemma TextRoundTrip(am: Manifest)
    requires WellFormed(am) && Entries(am) != []
    requires forall i :: 0 <= i < |Entries(am)| ==> IsName(Entries(am)[i].name)
    ensures Load(PrintAll(Entries(am))) == Ok(Reloaded(am))
            <==> forall i :: 0 <= i < |Entries(am)| ==> Readable(Entries(am)[i])
  {
    hide LoadFrom, Print, IsName, Quotable, IsBaseName;
    var s := Entries(am);
    assert Printables(s) by {
      EntriesPrintable(am);
    }
    assert PrintAll(s) != "" by {
      NotEmpty(s);
    }
    if forall i :: 0 <= i < |s| ==> Readable(s[i]) {
      PlaceEntries(am);
      LoadReadable(s, EMPTY, 0);
    }
    if Load(PrintAll(s)) == Ok(Reloaded(am)) {
      LoadedQuotable(s, EMPTY, 0);
      AllQuotable(am);
    }
  }

  predicate Printables(s: seq<Info>) {
    forall i :: 0 <= i < |s| ==> Printable(s[i])
  }

  lemma EntriesPrintable(am: Manifest)
    requires WellFormed(am) && forall i :: 0 <= i < |Entries(am)| ==> IsName(Entries(am)[i].name)
    ensures Printables(Entries(am))
  {
    hide IsName, IsBaseName;
  }

  lemma NotEmpty(s: seq<Info>)
    requires s != []
    ensures PrintAll(s) != ""
  {}

  lemma AllQuotable(am: Manifest)
    requires QuotableManifest(Reloaded(am))
    ensures QuotableNames(Entries(am))
  {
    hide Quotable;
  }

  // ------------------------------------------------ which appendfilename is safe

  lemma {:induction false} DigitsNeedNothing(s: string)
    requires Decimal.AllDigits(s)
    ensures !NeedsRepr(s) && '\'' !in s
  {}

  lemma QuotableJoin(a: string, b: string)
    requires !NeedsRepr(b) && '\'' !in b
    ensures Quotable(a + b) <==> Quotable(a)
  {
    var s := a + b;
    if NeedsRepr(a) {
      var i :| 0 <= i < |a| && NeedsEscape(a[i]);
      assert s[i] == a[i];
    }
    if NeedsRepr(s) {
      var i :| 0 <= i < |s| && NeedsEscape(s[i]);
      assert i < |a|;
    }
  }

  /** The names that the server makes are as quotable as appendfilename. */
  lemma NamesQuotable(aof: string, n: nat, rdb: bool)
    ensures Quotable(BaseName(aof, n, rdb)) <==> Quotable(aof)
    ensures Quotable(IncrName(aof, n)) <==> Quotable(aof)
  {
    var p := PrintSeq(n);
    DigitsNeedNothing(p);
    QuotableJoin(aof, ".");
    QuotableJoin(aof + ".", p);
    QuotableJoin(aof + "." + p, ".incr.aof");
    QuotableJoin(aof + "." + p, if rdb then ".base.rdb" else ".base.aof");
  }

  lemma {:induction false} BareUpToQuote(p: string, t: string, current: string)
    requires Clean(p)
    ensures Bare(p + ("'" + t), current) == SingleQuoted(t, current + p)
    decreases |p|
  {
    hide SingleQuoted;
    var s := p + ("'" + t);
    if p == "" {
      assert s[1..] == t && current + p == current;
    } else {
      assert s[1..] == p[1..] + ("'" + t);
      BareUpToQuote(p[1..], t, current + [p[0]]);
      assert current + [p[0]] + p[1..] == current + p;
    }
  }

  /** With one single quote in it a line has no end: the server does not start again. */
  lemma OneSingleQuote(ai: Info, p: string, q: string)
    requires Printable(ai) && |Print(ai)| <= MAX_LINE && ai.name == p + "'" + q
    requires !NeedsRepr(ai.name) && '\'' !in p && '\'' !in q
    ensures Load(Print(ai)) == Err(BadFormat)
  {
    hide Bare, SingleQuoted, ParseBuffer, LoadFrom, PrintSeq;
    LoadLine(ai, "", EMPTY, 0);
    assert Print(ai) + "" == Print(ai);
    ParseShortLine(ai);
    QuoteRuns(ai, p, q);
  }

  lemma QuoteRuns(ai: Info, p: string, q: string)
    requires Printable(ai) && ai.name == p + "'" + q
    requires !NeedsRepr(ai.name) && '\'' !in p && '\'' !in q
    ensures SplitArgs(Words(ai)) == None
  {
    hide Bare, SingleQuoted, PrintSeq, SplitArgs;
    var name := ai.name;
    assert forall i :: 0 <= i < |name| ==> !NeedsEscape(name[i]);
    assert forall i :: 0 <= i < |p| ==> p[i] == name[i] && p[i] in p;
    var rest := " " + ("seq" + (" " + (PrintSeq(ai.seqno) + (" " + ("type" + (" " + [ai.kind]))))));
    var w := name + rest;
    SplitWord("file", w);
    assert w == p + ("'" + (q + rest));
    BareUpToQuote(p, q + rest, "");
    assert NoEscapes(q + rest) && '\'' !in q + rest by {
      PlainWords(ai);
      NoSingleQuote(ai);
    }
    SingleQuotedDrops(q + rest, "" + p);
    SplitNone(w);
  }

  lemma NoSingleQuote(ai: Info)
    requires Printable(ai)
    ensures '\'' !in " " + ("seq" + (" " + (PrintSeq(ai.seqno) + (" " + ("type" + (" " + [ai.kind]))))))
  {
    assert '\'' !in PrintSeq(ai.seqno);
    hide PrintSeq;
  }

  lemma SplitNone(w: string)
    requires w != "" && w[0] != '\0' && !IsSpace(w[0]) && Bare(w, "") == Unbalanced
    ensures SplitArgs(w) == None
  {
    hide Bare;
  }
}
