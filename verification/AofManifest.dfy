/**
  The AOF manifest (src/aof.c): the list of BASE, HISTORY and INCR files, the
  functions that edit it, its printed form and the strict loader.

  Here a line of the manifest file is the sequence of its words; AofManifestText
  has its bytes.
*/
module AofManifest {
  import opened Wrappers
  import Decimal
  import Sds

  datatype Result<+T> = Ok(value: T) | Err(reason: LoadError)
  /** Why the loader exits. */
  datatype LoadError = EmptyFile | LineTooLong | BadFormat | NotAFileName | DuplicateBase | NotMonotonic | UnknownType

  /** aofInfo. */
  datatype Info = Info(name: string, seqno: int, kind: char)

  /** aofManifest. */
  datatype Manifest = Manifest(
    base: Option<Info>,
    history: seq<Info>,
    incr: seq<Info>,
    baseSeq: int,
    incrSeq: int,
    dirty: bool)

  const EMPTY := Manifest(None, [], [], 0, 0, false)

  // ---------------------------------------------------------------- file names

  /** "%lld" */
  function PrintSeq(n: int): string {
    if n >= 0 then Decimal.Print(n) else "-" + Decimal.Print(-n)
  }

  lemma AtoiPrintSeq(n: int)
    ensures Decimal.Atoi(PrintSeq(n)) == n
  {
    if n >= 0 {
      Decimal.AtoiPrint(n, "");
      assert Decimal.Print(n) + "" == Decimal.Print(n);
    } else {
      var s := PrintSeq(n);
      assert s[1..] == Decimal.Print(-n) + "";
      Decimal.DigitSpanStops(Decimal.Print(-n), "");
      assert s[1..][..|Decimal.Print(-n)|] == Decimal.Print(-n);
      Decimal.ValuePrint(-n);
    }
  }

  function BaseName(aof: string, n: int, rdb: bool): string {
    aof + "." + PrintSeq(n) + (if rdb then ".base.rdb" else ".base.aof")
  }

  function IncrName(aof: string, n: int): string {
    aof + "." + PrintSeq(n) + ".incr.aof"
  }

  lemma Middle(pre: string, mid: string, post: string)
    ensures (pre + mid + post)[|pre|..|pre| + |mid|] == mid
    ensures (pre + mid + post)[|pre| + |mid|..] == post
  {}

  lemma IncrNameInjective(aof: string, m: int, n: int)
    requires IncrName(aof, m) == IncrName(aof, n)
    ensures m == n
  {
    Middle(aof + ".", PrintSeq(m), ".incr.aof");
    Middle(aof + ".", PrintSeq(n), ".incr.aof");
    AtoiPrintSeq(m);
    AtoiPrintSeq(n);
  }

  lemma BaseNameInjective(aof: string, m: int, n: int, r: bool, q: bool)
    requires BaseName(aof, m, r) == BaseName(aof, n, q)
    ensures m == n
  {
    Middle(aof + ".", PrintSeq(m), if r then ".base.rdb" else ".base.aof");
    Middle(aof + ".", PrintSeq(n), if q then ".base.rdb" else ".base.aof");
    AtoiPrintSeq(m);
    AtoiPrintSeq(n);
  }

  lemma BaseIsNotIncr(aof: string, m: int, r: bool, n: int)
    ensures BaseName(aof, m, r) != IncrName(aof, n)
  {
    var b, i := BaseName(aof, m, r), IncrName(aof, n);
    assert b[|b| - 8] == 'b' && i[|i| - 8] == 'i';
  }

  // ------------------------------------------------------------------- editing

  /** getNewBaseFileNameAndMarkPreAsHistory. */
  function NewBase(am: Manifest, aof: string, rdb: bool): Manifest {
    var history := if am.base.Some? then [am.base.value.(kind := 'h')] + am.history else am.history;
    var n := am.baseSeq + 1;
    am.(base := Some(Info(BaseName(aof, n, rdb), n, 'b')), history := history, baseSeq := n, dirty := true)
  }

  /** getNewIncrAofName. */
  function NewIncr(am: Manifest, aof: string): Manifest {
    var n := am.incrSeq + 1;
    am.(incr := am.incr + [Info(IncrName(aof, n), n, 'i')], incrSeq := n, dirty := true)
  }

  function AsHistory(s: seq<Info>): (h: seq<Info>)
    ensures |h| == |s| && forall i :: 0 <= i < |s| ==> h[i] == s[i].(kind := 'h')
  {
    seq(|s|, i requires 0 <= i < |s| => s[i].(kind := 'h'))
  }

  /** What markRewrittenIncrAofAsHistory leaves while the AOF is open. */
  function MarkRewritten(am: Manifest): Manifest {
    if am.incr == [] then am
    else
      var last := |am.incr| - 1;
      am.(incr := am.incr[last..], history := AsHistory(am.incr[..last]) + am.history, dirty := true)
  }

  /** Moving the last INCR before `node` in front of the history. */
  lemma HistoryGrows(incr: seq<Info>, node: nat, end: nat, history: seq<Info>)
    requires 0 < node <= end <= |incr|
    ensures var left := incr[..node] + incr[end..];
            left[node - 1] == incr[node - 1] && left[..node - 1] + left[node..] == incr[..node - 1] + incr[end..]
    ensures [incr[node - 1].(kind := 'h')] + (AsHistory(incr[node..end]) + history)
         == AsHistory(incr[node - 1..end]) + history
  {
    assert AsHistory(incr[node - 1..end]) == [incr[node - 1].(kind := 'h')] + AsHistory(incr[node..end]);
  }

  /** markRewrittenIncrAofAsHistory: from the tail towards the head, one node at a time. */
  method MarkRewrittenIncrAofAsHistory(am: Manifest, aofOpen: bool) returns (r: Manifest)
    ensures aofOpen ==> r == MarkRewritten(am)
    ensures !aofOpen && am.incr != [] ==>
            r == am.(incr := [], history := AsHistory(am.incr) + am.history, dirty := true)
    ensures am.incr == [] ==> r == am
  {
    r := am;
    if |am.incr| == 0 {
      return;
    }
    var node := |am.incr|;
    if aofOpen {
      node := node - 1;
    }
    ghost var end := node;
    assert AsHistory(am.incr[node..end]) == [] && am.incr[..node] + am.incr[end..] == am.incr;
    while node > 0
      invariant 0 <= node <= end <= |am.incr|
      invariant r == am.(incr := am.incr[..node] + am.incr[end..], history := AsHistory(am.incr[node..end]) + am.history)
    {
      hide AsHistory;
      HistoryGrows(am.incr, node, end, am.history);
      var ai := r.incr[node - 1];
      r := r.(history := [ai.(kind := 'h')] + r.history,
              incr := r.incr[..node - 1] + r.incr[node..]);
      node := node - 1;
    }
    assert am.incr[..0] + am.incr[end..] == am.incr[end..] && am.incr[..|am.incr|] == am.incr;
    r := r.(dirty := true);
  }

  // -------------------------------------------------------------- well-formed

  predicate IsBaseName(path: string) {
    '/' !in path && '\\' !in path
  }

  predicate InfoOk(ai: Info, kind: char) {
    ai.kind == kind && ai.seqno != 0 && IsBaseName(ai.name)
  }

  /** INCR sequence numbers are positive and strictly increasing. */
  predicate Increasing(incr: seq<Info>) {
    && (forall i :: 0 <= i < |incr| ==> incr[i].seqno > 0)
    && (forall i, j :: 0 <= i < j < |incr| ==> incr[i].seqno < incr[j].seqno)
  }

  predicate WellFormed(am: Manifest) {
    && (am.base.Some? ==> InfoOk(am.base.value, 'b'))
    && (forall i :: 0 <= i < |am.history| ==> InfoOk(am.history[i], 'h'))
    && (forall i :: 0 <= i < |am.incr| ==> InfoOk(am.incr[i], 'i'))
    && Increasing(am.incr)
  }

  predicate Counted(am: Manifest) {
    && am.baseSeq >= 0 && am.incrSeq >= 0
    && (am.base.Some? ==> am.base.value.seqno == am.baseSeq)
    && (forall i :: 0 <= i < |am.incr| ==> am.incr[i].seqno <= am.incrSeq)
  }

  lemma NamesAreBaseNames(aof: string, n: int, rdb: bool)
    requires IsBaseName(aof)
    ensures IsBaseName(IncrName(aof, n)) && IsBaseName(BaseName(aof, n, rdb))
  {
    assert IsBaseName(PrintSeq(n));
    assert IsBaseName(aof + ".") && IsBaseName(aof + "." + PrintSeq(n));
  }

  /** Every edit keeps the manifest well formed and the sequence numbers in order. */
  lemma NewBaseKeepsOrder(am: Manifest, aof: string, rdb: bool)
    requires WellFormed(am) && Counted(am) && IsBaseName(aof)
    ensures WellFormed(NewBase(am, aof, rdb)) && Counted(NewBase(am, aof, rdb))
  {
    NamesAreBaseNames(aof, am.baseSeq + 1, rdb);
  }

  lemma NewIncrKeepsOrder(am: Manifest, aof: string)
    requires WellFormed(am) && Counted(am) && IsBaseName(aof)
    ensures WellFormed(NewIncr(am, aof)) && Counted(NewIncr(am, aof))
  {
    NamesAreBaseNames(aof, am.incrSeq + 1, false);
  }

  lemma MarkRewrittenKeepsOrder(am: Manifest)
    requires WellFormed(am) && Counted(am)
    ensures WellFormed(MarkRewritten(am)) && Counted(MarkRewritten(am))
  {
  }

  // ------------------------------------------------------------------ printing

  type Line = seq<string>

  /** aofInfoFormat. */
  function FormatInfo(ai: Info): Line {
    ["file", ai.name, "seq", PrintSeq(ai.seqno), "type", [ai.kind]]
  }

  function FormatAll(s: seq<Info>): (ls: seq<Line>)
    ensures |ls| == |s| && forall i :: 0 <= i < |s| ==> ls[i] == FormatInfo(s[i])
  {
    seq(|s|, i requires 0 <= i < |s| => FormatInfo(s[i]))
  }

  /** The order of the manifest file: BASE first, then HISTORY, then INCR. */
  function Entries(am: Manifest): seq<Info> {
    (if am.base.Some? then [am.base.value] else []) + (am.history + am.incr)
  }

  /** getAofManifestAsString. */
  function Format(am: Manifest): seq<Line> {
    FormatAll(Entries(am))
  }

  // ------------------------------------------------------------------- loading

  /** !strcasecmp(a, b) */
  predicate SameIgnoringCase(a: string, b: string) {
    |a| == |b| && forall i :: 0 <= i < |a| ==> Sds.LowerChar(a[i]) == Sds.LowerChar(b[i])
  }

  /** A field not seen yet is zero in the C structure. */
  datatype Draft = Draft(name: Option<string>, seqno: int, kind: char)

  /** The loop over key and value pairs of one line, from position i. */
  function ParsePairs(words: Line, i: nat, d: Draft): Result<Draft>
    requires |words| % 2 == 0 && i % 2 == 0 && i <= |words|
    decreases |words| - i
  {
    if i == |words| then Ok(d)
    else if SameIgnoringCase(words[i], "file") then
      if !IsBaseName(words[i + 1]) then Err(NotAFileName)
      else ParsePairs(words, i + 2, d.(name := Some(words[i + 1])))
    else if SameIgnoringCase(words[i], "seq") then
      ParsePairs(words, i + 2, d.(seqno := Decimal.Atoi(words[i + 1])))
    else if SameIgnoringCase(words[i], "type") then
      ParsePairs(words, i + 2, d.(kind := if words[i + 1] == [] then '\0' else words[i + 1][0]))
    else ParsePairs(words, i + 2, d)
  }

  /** One line of the manifest. */
  function ParseLine(words: Line): Result<Info> {
    if |words| < 6 || |words| % 2 != 0 then Err(BadFormat)
    else
      match ParsePairs(words, 0, Draft(None, 0, '\0'))
      case Err(e) => Err(e)
      case Ok(d) =>
        if d.name.None? || d.seqno == 0 || d.kind == '\0' then Err(BadFormat)
        else Ok(Info(d.name.value, d.seqno, d.kind))
  }

  /** File one entry away; maxseq is the last INCR sequence number seen. */
  function Place(am: Manifest, maxseq: int, ai: Info): Result<(Manifest, int)> {
    if ai.kind == 'b' then
      if am.base.Some? then Err(DuplicateBase)
      else Ok((am.(base := Some(ai), baseSeq := ai.seqno), maxseq))
    else if ai.kind == 'h' then Ok((am.(history := am.history + [ai]), maxseq))
    else if ai.kind == 'i' then
      if ai.seqno <= maxseq then Err(NotMonotonic)
      else Ok((am.(incr := am.incr + [ai], incrSeq := ai.seqno), ai.seqno))
    else Err(UnknownType)
  }

  predicate IsComment(words: Line) {
    words != [] && words[0] != [] && words[0][0] == '#'
  }

  function LoadFrom(lines: seq<Line>, am: Manifest, maxseq: int): Result<Manifest>
    decreases lines
  {
    if lines == [] then Ok(am)
    else if IsComment(lines[0]) then LoadFrom(lines[1..], am, maxseq)
    else
      match ParseLine(lines[0])
      case Err(e) => Err(e)
      case Ok(ai) =>
        match Place(am, maxseq, ai)
        case Err(e) => Err(e)
        case Ok(p) => LoadFrom(lines[1..], p.0, p.1)
  }

  function Load(lines: seq<Line>): Result<Manifest> {
    if lines == [] then Err(EmptyFile) else LoadFrom(lines, EMPTY, 0)
  }

  lemma KeyWords()
    ensures SameIgnoringCase("file", "file") && SameIgnoringCase("seq", "seq") && SameIgnoringCase("type", "type")
    ensures !SameIgnoringCase("seq", "file") && !SameIgnoringCase("type", "file") && !SameIgnoringCase("type", "seq")
  {
    assert Sds.LowerChar("type"[0]) != Sds.LowerChar("file"[0]);
  }

  /** A name with a directory in it is refused. */
  lemma PathRefused(ai: Info)
    requires '/' in ai.name || '\\' in ai.name
    ensures ParseLine(FormatInfo(ai)) == Err(NotAFileName)
  {
    KeyWords();
  }

  lemma ParseFormat(ai: Info)
    requires ai.seqno != 0 && ai.kind != '\0' && IsBaseName(ai.name)
    ensures ParseLine(FormatInfo(ai)) == Ok(ai)
  {
    KeyWords();
    AtoiPrintSeq(ai.seqno);
    var w := FormatInfo(ai);
    var d0 := Draft(None, 0, '\0');
    var d1 := d0.(name := Some(ai.name));
    var d2 := d1.(seqno := ai.seqno);
    assert ParsePairs(w, 0, d0) == ParsePairs(w, 2, d1);
    assert ParsePairs(w, 2, d1) == ParsePairs(w, 4, d2);
    assert ParsePairs(w, 4, d2) == ParsePairs(w, 6, d2.(kind := ai.kind));
  }

  lemma LoadOne(ai: Info, rest: seq<Line>, am: Manifest, maxseq: int)
    requires ai.seqno != 0 && ai.kind != '\0' && IsBaseName(ai.name)
    requires Place(am, maxseq, ai).Ok?
    ensures var p := Place(am, maxseq, ai).value;
            LoadFrom([FormatInfo(ai)] + rest, am, maxseq) == LoadFrom(rest, p.0, p.1)
  {
    var lines := [FormatInfo(ai)] + rest;
    ParseFormat(ai);
    assert lines[1..] == rest;
    assert !IsComment(lines[0]);
  }

  /** Entries filed away one after another. */
  function PlaceAll(am: Manifest, maxseq: int, s: seq<Info>): Result<(Manifest, int)>
    decreases s
  {
    if s == [] then Ok((am, maxseq))
    else
      match Place(am, maxseq, s[0])
      case Err(e) => Err(e)
      case Ok(p) => PlaceAll(p.0, p.1, s[1..])
  }

  lemma {:induction false} LoadAll(s: seq<Info>, am: Manifest, maxseq: int)
    requires forall i :: 0 <= i < |s| ==> s[i].seqno != 0 && s[i].kind != '\0' && IsBaseName(s[i].name)
    requires PlaceAll(am, maxseq, s).Ok?
    ensures LoadFrom(FormatAll(s), am, maxseq) == Ok(PlaceAll(am, maxseq, s).value.0)
    decreases s
  {
    if s != [] {
      LoadOne(s[0], FormatAll(s[1..]), am, maxseq);
      assert FormatAll(s) == [FormatInfo(s[0])] + FormatAll(s[1..]);
      var p := Place(am, maxseq, s[0]).value;
      LoadAll(s[1..], p.0, p.1);
    }
  }

  lemma {:induction false} PlaceSplits(am: Manifest, maxseq: int, s: seq<Info>, t: seq<Info>)
    requires PlaceAll(am, maxseq, s).Ok?
    ensures var p := PlaceAll(am, maxseq, s).value; PlaceAll(am, maxseq, s + t) == PlaceAll(p.0, p.1, t)
    decreases s
  {
    if s == [] {
      assert s + t == t;
    } else {
      var p := Place(am, maxseq, s[0]).value;
      assert (s + t)[1..] == s[1..] + t;
      PlaceSplits(p.0, p.1, s[1..], t);
    }
  }

  lemma {:induction false} PlaceHistory(h: seq<Info>, am: Manifest, maxseq: int)
    requires forall i :: 0 <= i < |h| ==> h[i].kind == 'h'
    ensures PlaceAll(am, maxseq, h) == Ok((am.(history := am.history + h), maxseq))
    decreases h
  {
    if h == [] {
      assert am.history + h == am.history;
    } else {
      PlaceHistory(h[1..], am.(history := am.history + [h[0]]), maxseq);
      assert am.history + [h[0]] + h[1..] == am.history + h;
    }
  }

  function LastSeq(s: seq<Info>, otherwise: int): int {
    if s == [] then otherwise else s[|s| - 1].seqno
  }

  lemma {:induction false} PlaceIncr(s: seq<Info>, am: Manifest, maxseq: int)
    requires Increasing(s) && forall i :: 0 <= i < |s| ==> s[i].kind == 'i'
    requires s != [] ==> maxseq < s[0].seqno
    ensures PlaceAll(am, maxseq, s)
         == Ok((am.(incr := am.incr + s, incrSeq := LastSeq(s, am.incrSeq)), LastSeq(s, maxseq)))
    decreases s
  {
    if s == [] {
      assert am.incr + s == am.incr;
    } else {
      PlaceIncr(s[1..], am.(incr := am.incr + [s[0]], incrSeq := s[0].seqno), s[0].seqno);
      assert am.incr + [s[0]] + s[1..] == am.incr + s;
    }
  }

  /** What a restart sees of a manifest: the counters come from the files listed. */
  function Reloaded(am: Manifest): Manifest {
    Manifest(am.base, am.history, am.incr,
             if am.base.Some? then am.base.value.seqno else 0,
             LastSeq(am.incr, 0),
             false)
  }

  lemma PlaceBase(base: Option<Info>)
    requires base.Some? ==> base.value.kind == 'b'
    ensures PlaceAll(EMPTY, 0, if base.Some? then [base.value] else [])
         == Ok((if base.Some? then EMPTY.(base := base, baseSeq := base.value.seqno) else EMPTY, 0))
  {}

  lemma PlaceEntries(am: Manifest)
    requires WellFormed(am)
    ensures PlaceAll(EMPTY, 0, Entries(am)) == Ok((Reloaded(am), LastSeq(am.incr, 0)))
  {
    hide PlaceAll;
    var b := if am.base.Some? then [am.base.value] else [];
    var start := if am.base.Some? then EMPTY.(base := am.base, baseSeq := am.base.value.seqno) else EMPTY;
    PlaceBase(am.base);
    PlaceSplits(EMPTY, 0, b, am.history + am.incr);
    PlaceHistory(am.history, start, 0);
    assert [] + am.history == am.history && [] + am.incr == am.incr;
    PlaceSplits(start, 0, am.history, am.incr);
    PlaceIncr(am.incr, start.(history := am.history), 0);
  }

  /** Loading the printed form of any non-empty well-formed manifest gives it back. */
  lemma RoundTrip(am: Manifest)
    requires WellFormed(am) && Entries(am) != []
    ensures Load(Format(am)) == Ok(Reloaded(am))
  {
    PlaceEntries(am);
    LoadAll(Entries(am), EMPTY, 0);
  }
}
