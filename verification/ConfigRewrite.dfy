/**
  CONFIG REWRITE (src/config.c): which lines of the old file each option owns, how they
  are reused, and what becomes of the others.
*/
module ConfigRewrite {
  import opened Wrappers
  import opened Sds

  const SIGNATURE := "# Generated by CONFIG REWRITE"

  // ------------------------------------------------------------------- the old file

  /** A line of the old file as it is kept, and the option that it belongs to. */
  datatype Old = Old(text: string, owner: Option<string>)

  /** What a trimmed line is; lookup gives the name of a configuration in lower case, or that of which it is an alias. */
  function OwnerOf(line: string, lookup: string -> Option<string>, sentinel: bool): Option<string> {
    match SplitArgs(line)
    case None => None
    case Some(argv) =>
      if argv == [] then None
      else
        var name := Lower(argv[0]);
        if name == "sentinel" then Some(if sentinel && |argv| > 1 then name + " " + Lower(argv[1]) else name)
        else if name == "include" || name == "rename-command" || name == "user" || name == "loadmodule" then Some(name)
        else
          match lookup(name)
          case None => None
          case Some(primary) => Some(Lower(primary))
  }

  predicate IsComment(line: string) {
    line == "" || line[0] == '#' || line[0] == '\0'
  }

  function ReadOld(raw: string, lookup: string -> Option<string>, sentinel: bool): Old {
    var line := Trim(raw);
    if IsComment(line) then Old(line, None)
    else
      var owner := OwnerOf(line, lookup, sentinel);
      Old(if owner.None? then "# ??? " + line else line, owner)
  }

  function ReadAll(lines: seq<string>, lookup: string -> Option<string>, sentinel: bool): (file: seq<Old>)
    ensures |file| == |lines| && forall i :: 0 <= i < |lines| ==> file[i] == ReadOld(lines[i], lookup, sentinel)
  {
    seq(|lines|, i requires 0 <= i < |lines| => ReadOld(lines[i], lookup, sentinel))
  }

  ghost predicate HasSignature(file: seq<Old>) {
    exists i :: 0 <= i < |file| && file[i].owner == None && file[i].text == SIGNATURE
  }

  function Get<T>(m: map<string, seq<T>>, o: string): seq<T> {
    if o in m then m[o] else []
  }

  /** Where the lines of an option are. */
  function OldLines(file: seq<Old>, o: string): seq<nat> {
    if file == [] then []
    else
      var n := |file| - 1;
      OldLines(file[..n], o) + if file[n].owner == Some(o) then [n] else []
  }

  /** How many lines of the same option come before line i. */
  function Rank(file: seq<Old>, i: nat): nat
    requires i < |file| && file[i].owner.Some?
  {
    |OldLines(file[..i], file[i].owner.value)|
  }

  lemma OldLinesSnoc(file: seq<Old>, x: Old, o: string)
    ensures OldLines(file + [x], o) == OldLines(file, o) + if x.owner == Some(o) then [|file|] else []
  {
    assert (file + [x])[..|file|] == file;
  }

  /** The k-th line of an option is the one with k before it. */
  lemma {:induction false} OldLinesRank(file: seq<Old>, o: string)
    ensures forall k :: 0 <= k < |OldLines(file, o)| ==>
              var p := OldLines(file, o)[k]; p < |file| && file[p].owner == Some(o) && Rank(file, p) == k
    ensures forall i :: 0 <= i < |file| && file[i].owner == Some(o) ==>
              Rank(file, i) < |OldLines(file, o)| && OldLines(file, o)[Rank(file, i)] == i
  {
    if file != [] {
      var n := |file| - 1;
      OldLinesRank(file[..n], o);
      forall i | 0 <= i < n && file[i].owner == Some(o)
        ensures Rank(file[..n], i) == Rank(file, i)
      {
        assert file[..n][..i] == file[..i];
      }
    }
  }

  // -------------------------------------------------------------------- the requests

  /** A call of rewriteConfigRewriteLine, or of rewriteConfigMarkAsProcessed alone. */
  datatype Request = Line(option: string, line: string, force: bool) | Mark(option: string) {
    /** The dictionaries compare their keys ignoring case. */
    function Key(): string {
      Lower(option)
    }
  }

  predicate AllLines(rs: seq<Request>) {
    forall i :: 0 <= i < |rs| ==> rs[i].Line?
  }

  /** The lines asked for on behalf of an option. */
  function Calls(reqs: seq<Request>, o: string): seq<Request>
    ensures AllLines(Calls(reqs, o))
  {
    if reqs == [] then []
    else
      var n := |reqs| - 1;
      Calls(reqs[..n], o) + if reqs[n].Line? && reqs[n].Key() == o then [reqs[n]] else []
  }

  function Names(reqs: seq<Request>): set<string> {
    set r | r in reqs :: r.Key()
  }

  /** Line i of the old file: the line asked for in its turn, if there is one. */
  function Reused(file: seq<Old>, reqs: seq<Request>, i: nat): string
    requires i < |file|
  {
    match file[i].owner
    case None => file[i].text
    case Some(o) =>
      var k := Rank(file, i);
      if k < |Calls(reqs, o)| then Calls(reqs, o)[k].line else file[i].text
  }

  /** The old lines of an option that are still to be reused. */
  function Left(file: seq<Old>, reqs: seq<Request>, o: string): seq<nat> {
    var l, c := OldLines(file, o), |Calls(reqs, o)|;
    if c < |l| then l[c..] else []
  }

  /** The requests whose lines are appended: forced ones of options that have no old line left. */
  function Added(file: seq<Old>, forceWrite: bool, reqs: seq<Request>): (a: seq<Request>)
    ensures AllLines(a)
  {
    if reqs == [] then []
    else
      var n := |reqs| - 1;
      var r := reqs[n];
      Added(file, forceWrite, reqs[..n])
      + if r.Line? && Left(file, reqs[..n], r.Key()) == [] && (r.force || forceWrite) then [r] else []
  }

  function Lines(rs: seq<Request>): (ls: seq<string>)
    requires AllLines(rs)
    ensures |ls| == |rs| && forall i :: 0 <= i < |rs| ==> ls[i] == rs[i].line
  {
    seq(|rs|, i requires 0 <= i < |rs| => rs[i].line)
  }

  /** What is appended to the file: the signature goes before the first line, unless the file has it. */
  ghost function Tail(file: seq<Old>, forceWrite: bool, reqs: seq<Request>): seq<string> {
    var added := Lines(Added(file, forceWrite, reqs));
    if added == [] then [] else (if HasSignature(file) then [] else [SIGNATURE]) + added
  }

  /** Line i of the old file at the end: old lines of processed options that were not reused are empty. */
  function Final(file: seq<Old>, reqs: seq<Request>, i: nat): string
    requires i < |file|
  {
    if file[i].owner.Some? && file[i].owner.value in Names(reqs) && Rank(file, i) >= |Calls(reqs, file[i].owner.value)|
    then ""
    else Reused(file, reqs, i)
  }

  lemma RequestsSnoc(reqs: seq<Request>, r: Request, o: string)
    ensures Calls(reqs + [r], o) == Calls(reqs, o) + if r.Line? && r.Key() == o then [r] else []
    ensures Names(reqs + [r]) == Names(reqs) + {r.Key()}
  {
    assert (reqs + [r])[..|reqs|] == reqs;
    assert forall x :: x in reqs + [r] <==> x in reqs || x == r;
  }

  lemma AddedSnoc(file: seq<Old>, forceWrite: bool, reqs: seq<Request>, r: Request)
    ensures Added(file, forceWrite, reqs + [r]) == Added(file, forceWrite, reqs)
            + if r.Line? && Left(file, reqs, r.Key()) == [] && (r.force || forceWrite) then [r] else []
  {
    assert (reqs + [r])[..|reqs|] == reqs;
  }

  /** One more request: the next old line of its option is reused, and no other line of the file changes. */
  lemma ReusedSnoc(file: seq<Old>, reqs: seq<Request>, r: Request, i: nat)
    requires i < |file|
    ensures Reused(file, reqs + [r], i) ==
            if r.Line? && Left(file, reqs, r.Key()) != [] && i == Left(file, reqs, r.Key())[0] then r.line
            else Reused(file, reqs, i)
  {
    hide OldLines, Calls;
    OldLinesRank(file, r.Key());
    if file[i].owner.Some? {
      RequestsSnoc(reqs, r, file[i].owner.value);
    }
  }

  lemma LeftSnoc(file: seq<Old>, reqs: seq<Request>, r: Request, o: string)
    ensures Left(file, reqs + [r], o) ==
            if r.Line? && r.Key() == o && Left(file, reqs, o) != [] then Left(file, reqs, o)[1..] else Left(file, reqs, o)
  {
    hide OldLines, Calls;
    RequestsSnoc(reqs, r, o);
  }

  /** The old lines left to an option are its lines that were not reused. */
  lemma LeftIs(file: seq<Old>, reqs: seq<Request>, o: string, i: nat)
    ensures i in Left(file, reqs, o) <==> i < |file| && file[i].owner == Some(o) && Rank(file, i) >= |Calls(reqs, o)|
  {
    hide OldLines, Calls, Rank;
    OldLinesRank(file, o);
    var l, c := OldLines(file, o), |Calls(reqs, o)|;
    if i in Left(file, reqs, o) {
      var j :| 0 <= j < |l| - c && l[c..][j] == i;
      assert l[c + j] == i;
    }
    if i < |file| && file[i].owner == Some(o) && Rank(file, i) >= c {
      assert l[c..][Rank(file, i) - c] == i;
    }
  }

  // ----------------------------------------------------------- accepted lines, in order

  /** The lines taken for an option with n old lines: the k-th if there is a k-th old line, or by force. */
  function Taken(n: nat, calls: seq<Request>, forceWrite: bool): seq<Request>
    requires AllLines(calls)
  {
    if calls == [] then []
    else
      var k := |calls| - 1;
      Taken(n, calls[..k], forceWrite) + if k < n || calls[k].force || forceWrite then [calls[k]] else []
  }

  lemma TakenSnoc(n: nat, calls: seq<Request>, r: Request, forceWrite: bool)
    requires AllLines(calls) && r.Line?
    ensures Taken(n, calls + [r], forceWrite)
         == Taken(n, calls, forceWrite) + if |calls| < n || r.force || forceWrite then [r] else []
  {
    assert (calls + [r])[..|calls|] == calls;
  }

  function FirstOf(n: nat, calls: seq<Request>): seq<Request> {
    if |calls| <= n then calls else calls[..n]
  }

  lemma FirstOfSnoc(n: nat, calls: seq<Request>, r: Request)
    ensures FirstOf(n, calls + [r]) == FirstOf(n, calls) + if |calls| < n then [r] else []
  {}

  /** One more request, and what it does for the option o. */
  lemma CallsAdded(file: seq<Old>, forceWrite: bool, reqs: seq<Request>, r: Request, o: string)
    ensures var n, calls, added := |OldLines(file, o)|, Calls(reqs, o), Calls(Added(file, forceWrite, reqs), o);
            var mine := r.Line? && r.Key() == o;
            && Calls(reqs + [r], o) == (if mine then calls + [r] else calls)
            && Calls(Added(file, forceWrite, reqs + [r]), o)
               == if mine && |calls| >= n && (r.force || forceWrite) then added + [r] else added
  {
    hide OldLines, Calls, Added;
    AddedSnoc(file, forceWrite, reqs, r);
    RequestsSnoc(reqs, r, o);
    RequestsSnoc(Added(file, forceWrite, reqs), r, o);
    assert Calls(reqs, o) + [] == Calls(reqs, o);
    var added := Added(file, forceWrite, reqs);
    assert added + [] == added && Calls(added, o) + [] == Calls(added, o);
  }

  lemma {:induction false} NotAddedYet(file: seq<Old>, forceWrite: bool, reqs: seq<Request>, o: string)
    requires |Calls(reqs, o)| <= |OldLines(file, o)|
    ensures Calls(Added(file, forceWrite, reqs), o) == []
  {
    if reqs != [] {
      var m := |reqs| - 1;
      assert reqs == reqs[..m] + [reqs[m]];
      CallsAdded(file, forceWrite, reqs[..m], reqs[m], o);
      NotAddedYet(file, forceWrite, reqs[..m], o);
    }
  }

  /** The old lines of an option hold the first lines taken for it, in order, and the appended ones the others. */
  lemma {:induction false} TakenInOrder(file: seq<Old>, forceWrite: bool, reqs: seq<Request>, o: string)
    ensures var n, calls := |OldLines(file, o)|, Calls(reqs, o);
            Taken(n, calls, forceWrite) == FirstOf(n, calls) + Calls(Added(file, forceWrite, reqs), o)
  {
    if reqs != [] {
      var m := |reqs| - 1;
      var before, r := reqs[..m], reqs[m];
      assert reqs == before + [r];
      TakenInOrder(file, forceWrite, before, o);
      CallsAdded(file, forceWrite, before, r, o);
      if r.Line? && r.Key() == o {
        var n, calls := |OldLines(file, o)|, Calls(before, o);
        TakenStep(n, calls, Calls(Added(file, forceWrite, before), o), r, forceWrite);
        if |calls| < n {
          NotAddedYet(file, forceWrite, before, o);
        }
      }
    }
  }

  lemma TakenStep(n: nat, calls: seq<Request>, added: seq<Request>, r: Request, forceWrite: bool)
    requires AllLines(calls) && r.Line? && Taken(n, calls, forceWrite) == FirstOf(n, calls) + added
    ensures |calls| >= n ==> Taken(n, calls + [r], forceWrite)
                             == FirstOf(n, calls + [r]) + if r.force || forceWrite then added + [r] else added
    ensures |calls| < n && added == [] ==> Taken(n, calls + [r], forceWrite) == FirstOf(n, calls + [r]) + added
  {
    hide Taken, FirstOf;
    TakenSnoc(n, calls, r, forceWrite);
    FirstOfSnoc(n, calls, r);
  }

  // ---------------------------------------------------------------- the rewrite state

  class RewriteState {
    var lines: seq<string>
    var optionToLine: map<string, seq<nat>>
    var rewritten: set<string>
    var needsSignature: bool
    var forceWrite: bool

    /** The state after the requests reqs on the old file. */
    ghost predicate After(file: seq<Old>, reqs: seq<Request>)
      reads this
    {
      && |file| <= |lines|
      && (forall i :: 0 <= i < |file| ==> lines[i] == Reused(file, reqs, i))
      && lines[|file|..] == Tail(file, forceWrite, reqs)
      && LinesLeft(optionToLine, file, reqs)
      && rewritten == Names(reqs)
      && needsSignature == (!HasSignature(file) && Added(file, forceWrite, reqs) == [])
    }

    /** rewriteConfigCreateState */
    constructor (forceWrite: bool)
      ensures After([], []) && this.forceWrite == forceWrite
    {
      lines, optionToLine, rewritten, needsSignature := [], map[], {}, true;
      this.forceWrite := forceWrite;
    }

    /** One line of the loop of rewriteConfigReadOldFile. */
    method ReadLine(raw: string, lookup: string -> Option<string>, sentinel: bool, ghost file: seq<Old>)
      requires After(file, [])
      modifies `lines, `optionToLine, `needsSignature
      ensures After(file + [ReadOld(raw, lookup, sentinel)], [])
    {
      hide OwnerOf, Reused, Tail, Added, HasSignature, LinesLeft, Names, Trim;
      var line := Sdstrim(raw);
      ghost var x := ReadOld(raw, lookup, sentinel);
      ReadNext(optionToLine, file, x);
      SignatureNext(file, x);
      NoRequests(file, forceWrite);
      NoRequests(file + [x], forceWrite);
      if IsComment(line) {
        if needsSignature && line == SIGNATURE {
          needsSignature := false;
        }
        lines := lines + [line];
        return;
      }
      var owner := OwnerOf(line, lookup, sentinel);
      if owner.None? {
        assert ("# ??? " + line)[2] == '?' && SIGNATURE[2] == 'G';
        lines := lines + ["# ??? " + line];
        return;
      }
      lines := lines + [line];
      var o := owner.value;
      optionToLine := optionToLine[o := (if o in optionToLine then optionToLine[o] else []) + [|lines| - 1]];
    }

    /** rewriteConfigReadOldFile on the lines of the file. */
    method ReadOldFile(text: seq<string>, lookup: string -> Option<string>, sentinel: bool)
      requires After([], [])
      modifies `lines, `optionToLine, `needsSignature
      ensures After(ReadAll(text, lookup, sentinel), [])
    {
      hide After, ReadOld;
      ghost var all := ReadAll(text, lookup, sentinel);
      assert all[..0] == [];
      for i := 0 to |text|
        invariant After(all[..i], [])
      {
        assert all[..i + 1] == all[..i] + [all[i]];
        ReadLine(text[i], lookup, sentinel, all[..i]);
      }
      assert all[..|text|] == all;
    }

    /** rewriteConfigRewriteLine: taken if the option still has an old line, or by force. */
    method RewriteLine(option: string, line: string, force: bool, ghost file: seq<Old>, ghost reqs: seq<Request>) returns (taken: bool)
      requires After(file, reqs)
      modifies `lines, `optionToLine, `rewritten, `needsSignature
      ensures After(file, reqs + [Line(option, line, force)])
      ensures taken <==> Left(file, reqs, Lower(option)) != [] || force || forceWrite
    {
      hide Reused, Left, Added, Names, HasSignature, LinesLeft, Tail, Lower;
      ghost var r := Line(option, line, force);
      LeftNext(optionToLine, file, reqs, r);
      LinesNext(file, reqs, r);
      TailNext(file, forceWrite, reqs, r);
      var key := Lower(option);
      rewritten := rewritten + {key};
      var present := key in optionToLine;
      if !present && !force && !forceWrite {
        return false;
      }
      taken := true;
      if present {
        var l := optionToLine[key];
        var linenum := l[0];
        if |l| == 1 {
          optionToLine := optionToLine - {key};
        } else {
          optionToLine := optionToLine[key := l[1..]];
        }
        lines := lines[linenum := line];
      } else {
        if needsSignature {
          lines := lines + [SIGNATURE];
          needsSignature := false;
        }
        lines := lines + [line];
      }
    }

    /** rewriteConfigMarkAsProcessed */
    method MarkAsProcessed(option: string, ghost file: seq<Old>, ghost reqs: seq<Request>)
      requires After(file, reqs)
      modifies `rewritten
      ensures After(file, reqs + [Mark(option)])
    {
      hide Reused, Left, Added, Names, HasSignature, LinesLeft, Tail, Lower;
      LeftNext(optionToLine, file, reqs, Mark(option));
      LinesNext(file, reqs, Mark(option));
      TailNext(file, forceWrite, reqs, Mark(option));
      rewritten := rewritten + {Lower(option)};
    }

    /** The inner loop of rewriteConfigRemoveOrphaned. */
    method Blank(l: seq<nat>)
      requires forall k :: 0 <= k < |l| ==> l[k] < |lines|
      modifies `lines
      ensures |lines| == |old(lines)| && forall i :: 0 <= i < |lines| ==> lines[i] == if i in l then "" else old(lines)[i]
    {
      for k := 0 to |l|
        invariant |lines| == |old(lines)|
        invariant forall i :: 0 <= i < |lines| ==> lines[i] == if i in l[..k] then "" else old(lines)[i]
      {
        lines := lines[l[k] := ""];
        assert l[..k + 1] == l[..k] + [l[k]];
      }
      assert l[..|l|] == l;
    }

    /** One option in the loop of rewriteConfigRemoveOrphaned. */
    method BlankOption(option: string, ghost left: map<string, seq<nat>>, ghost done: set<string>, ghost before: seq<string>)
      requires option in optionToLine && option in left && optionToLine[option] == left[option]
      requires forall k :: 0 <= k < |left[option]| ==> left[option][k] < |lines|
      requires Blanked(left, rewritten, done, before, lines)
      modifies `lines, `optionToLine
      ensures |lines| == |old(lines)| && Blanked(left, rewritten, done + {option}, before, lines)
      ensures forall o :: o in old(optionToLine) && o != option ==> o in optionToLine && optionToLine[o] == old(optionToLine)[o]
    {
      hide Blanked;
      ghost var mid := lines;
      if option in rewritten {
        Blank(optionToLine[option]);
        optionToLine := optionToLine[option := []];
      }
      BlankedMore(left, rewritten, done, option, before, mid, lines);
    }

    /** The loop of rewriteConfigRemoveOrphaned: exactly the lines left to processed options become empty. */
    method BlankOrphans()
      requires InFile(optionToLine, |lines|)
      modifies `lines, `optionToLine
      ensures Blanked(old(optionToLine), rewritten, old(optionToLine).Keys, old(lines), lines)
    {
      hide Blanked;
      ghost var left, before := optionToLine, lines;
      var keys := optionToLine.Keys;
      NothingBlanked(left, rewritten, lines);
      assert left.Keys - keys == {};
      while keys != {}
        invariant keys <= left.Keys && |lines| == |before|
        invariant forall o :: o in keys ==> o in optionToLine && optionToLine[o] == left[o]
        invariant Blanked(left, rewritten, left.Keys - keys, before, lines)
        decreases |keys|
      {
        var option :| option in keys;
        BlankOption(option, left, left.Keys - keys, before);
        assert left.Keys - (keys - {option}) == (left.Keys - keys) + {option};
        keys := keys - {option};
      }
      assert left.Keys - {} == left.Keys;
    }

    /** rewriteConfigRemoveOrphaned: what is left of the file. */
    method RemoveOrphaned(ghost file: seq<Old>, ghost reqs: seq<Request>)
      requires After(file, reqs)
      modifies `lines, `optionToLine
      ensures |file| <= |lines| && lines[|file|..] == Tail(file, forceWrite, reqs)
      ensures forall i :: 0 <= i < |file| ==> lines[i] == Final(file, reqs, i)
    {
      hide Reused, Left, Final, Tail, HasSignature, Names, Orphan;
      ghost var left, before := optionToLine, lines;
      LeftInFile(left, file, reqs);
      BlankOrphans();
      OrphansFinal(left, file, reqs);
      assert lines[|file|..] == before[|file|..];
    }
  }

  /** No option is kept without lines. */
  ghost predicate LinesLeft(m: map<string, seq<nat>>, file: seq<Old>, reqs: seq<Request>) {
    && (forall o {:trigger Get(m, o)} :: Get(m, o) == Left(file, reqs, o))
    && forall o :: o in m ==> m[o] != []
  }

  /** Before any request. */
  lemma NoRequests(file: seq<Old>, forceWrite: bool)
    ensures forall i :: 0 <= i < |file| ==> Reused(file, [], i) == file[i].text
    ensures Added(file, forceWrite, []) == [] && Tail(file, forceWrite, []) == []
  {}

  lemma LeftOfFile(file: seq<Old>, o: string)
    ensures Left(file, [], o) == OldLines(file, o)
  {
    assert OldLines(file, o)[0..] == OldLines(file, o);
  }

  /** One more line of the old file. */
  lemma ReadNext(m: map<string, seq<nat>>, file: seq<Old>, x: Old)
    requires LinesLeft(m, file, [])
    ensures LinesLeft(if x.owner == None then m else m[x.owner.value := Get(m, x.owner.value) + [|file|]], file + [x], [])
  {
    hide Left, OldLines;
    var m' := if x.owner == None then m else m[x.owner.value := Get(m, x.owner.value) + [|file|]];
    forall o
      ensures Get(m', o) == Left(file + [x], [], o)
    {
      assert Get(m, o) == Left(file, [], o);
      LeftOfFile(file, o);
      LeftOfFile(file + [x], o);
      OldLinesSnoc(file, x, o);
    }
  }

  lemma SignatureNext(file: seq<Old>, x: Old)
    ensures HasSignature(file + [x]) <==> HasSignature(file) || (x.owner == None && x.text == SIGNATURE)
  {
    var file' := file + [x];
    if HasSignature(file) {
      var i :| 0 <= i < |file| && file[i].owner == None && file[i].text == SIGNATURE;
      assert file'[i] == file[i];
    }
    assert file'[|file|] == x;
  }

  /** The old lines left after the first one of o was taken. */
  function Popped(m: map<string, seq<nat>>, o: string): map<string, seq<nat>>
    requires o in m && m[o] != []
  {
    if |m[o]| == 1 then m - {o} else m[o := m[o][1..]]
  }

  lemma LeftNext(m: map<string, seq<nat>>, file: seq<Old>, reqs: seq<Request>, r: Request)
    requires LinesLeft(m, file, reqs)
    ensures var o := r.Key();
            && (o in m <==> Left(file, reqs, o) != []) && (o in m ==> m[o] == Left(file, reqs, o))
            && LinesLeft(if r.Line? && o in m then Popped(m, o) else m, file, reqs + [r])
  {
    hide Left;
    var o := r.Key();
    assert Get(m, o) == Left(file, reqs, o);
    var m' := if r.Line? && o in m then Popped(m, o) else m;
    forall x
      ensures Get(m', x) == Left(file, reqs + [r], x)
    {
      assert Get(m, x) == Left(file, reqs, x);
      LeftSnoc(file, reqs, r, x);
    }
  }

  /** What one more request does to the lines of the file. */
  lemma LinesNext(file: seq<Old>, reqs: seq<Request>, r: Request)
    ensures var l := Left(file, reqs, r.Key());
            && (r.Line? && l != [] ==> l[0] < |file|)
            && (forall i {:trigger Reused(file, reqs + [r], i)} :: 0 <= i < |file| ==>
                  (Reused(file, reqs + [r], i) == if r.Line? && l != [] && i == l[0] then r.line else Reused(file, reqs, i)))
    ensures Names(reqs + [r]) == Names(reqs) + {r.Key()}
  {
    hide Reused, Left, Names;
    var l := Left(file, reqs, r.Key());
    if l != [] {
      assert l[0] in l;
      LeftIs(file, reqs, r.Key(), l[0]);
    }
    forall i | 0 <= i < |file|
      ensures Reused(file, reqs + [r], i) == if r.Line? && l != [] && i == l[0] then r.line else Reused(file, reqs, i)
    {
      ReusedSnoc(file, reqs, r, i);
    }
    RequestsSnoc(reqs, r, r.Key());
  }

  /** And to those appended. */
  lemma TailNext(file: seq<Old>, forceWrite: bool, reqs: seq<Request>, r: Request)
    ensures var added := r.Line? && Left(file, reqs, r.Key()) == [] && (r.force || forceWrite);
            var first := Added(file, forceWrite, reqs) == [] && !HasSignature(file);
            && (Added(file, forceWrite, reqs + [r]) == [] <==> Added(file, forceWrite, reqs) == [] && !added)
            && Tail(file, forceWrite, reqs + [r])
               == Tail(file, forceWrite, reqs) + if added then (if first then [SIGNATURE] else []) + [r.line] else []
  {
    hide Left, HasSignature, Added;
    AddedSnoc(file, forceWrite, reqs, r);
    var added := Added(file, forceWrite, reqs);
    if r.Line? && Left(file, reqs, r.Key()) == [] && (r.force || forceWrite) {
      LinesSnoc(added, r);
    } else {
      assert added + [] == added;
      assert Tail(file, forceWrite, reqs) + [] == Tail(file, forceWrite, reqs);
    }
  }

  lemma LinesSnoc(rs: seq<Request>, r: Request)
    requires AllLines(rs) && r.Line?
    ensures Lines(rs + [r]) == Lines(rs) + [r.line]
  {}

  /** The line is left over from a processed option among those done. */
  ghost predicate Orphan(left: map<string, seq<nat>>, rewritten: set<string>, done: set<string>, i: nat) {
    exists o :: o in done && o in left && o in rewritten && i in left[o]
  }

  ghost predicate Blanked(left: map<string, seq<nat>>, rewritten: set<string>, done: set<string>, before: seq<string>, now: seq<string>) {
    && |now| == |before|
    && forall i {:trigger now[i]} :: 0 <= i < |now| ==> now[i] == if Orphan(left, rewritten, done, i) then "" else before[i]
  }

  lemma NothingBlanked(left: map<string, seq<nat>>, rewritten: set<string>, lines: seq<string>)
    ensures Blanked(left, rewritten, {}, lines, lines)
  {}

  lemma BlankedMore(left: map<string, seq<nat>>, rewritten: set<string>, done: set<string>, o: string,
                    before: seq<string>, mid: seq<string>, now: seq<string>)
    requires o in left && Blanked(left, rewritten, done, before, mid) && |now| == |mid|
    requires forall i {:trigger now[i]} :: 0 <= i < |now| ==> now[i] == if o in rewritten && i in left[o] then "" else mid[i]
    ensures Blanked(left, rewritten, done + {o}, before, now)
  {
    forall i | 0 <= i < |now|
      ensures now[i] == if Orphan(left, rewritten, done + {o}, i) then "" else before[i]
    {
      assert mid[i] == if Orphan(left, rewritten, done, i) then "" else before[i];
      if Orphan(left, rewritten, done, i) {
        var x :| x in done && x in left && x in rewritten && i in left[x];
        assert x in done + {o};
      }
      assert o in done + {o};
    }
  }

  ghost predicate InFile(left: map<string, seq<nat>>, n: nat) {
    forall o, k :: o in left && 0 <= k < |left[o]| ==> left[o][k] < n
  }

  lemma LeftInFile(left: map<string, seq<nat>>, file: seq<Old>, reqs: seq<Request>)
    requires LinesLeft(left, file, reqs)
    ensures InFile(left, |file|)
  {
    hide Left;
    forall o, k | o in left && 0 <= k < |left[o]|
      ensures left[o][k] < |file|
    {
      assert Get(left, o) == Left(file, reqs, o) && left[o][k] in left[o];
      LeftIs(file, reqs, o, left[o][k]);
    }
  }

  /** Blanking exactly the orphans leaves the final lines. */
  lemma OrphansFinal(left: map<string, seq<nat>>, file: seq<Old>, reqs: seq<Request>)
    requires LinesLeft(left, file, reqs)
    ensures forall i {:trigger Final(file, reqs, i)} :: 0 <= i < |file| ==>
              Final(file, reqs, i) == if Orphan(left, Names(reqs), left.Keys, i) then "" else Reused(file, reqs, i)
    ensures forall i: nat :: Orphan(left, Names(reqs), left.Keys, i) ==> i < |file|
  {
    hide Left, Reused, Names, Rank, Calls;
    forall i: nat
      ensures Orphan(left, Names(reqs), left.Keys, i) <==>
              i < |file| && file[i].owner.Some? && file[i].owner.value in Names(reqs)
              && Rank(file, i) >= |Calls(reqs, file[i].owner.value)|
    {
      if Orphan(left, Names(reqs), left.Keys, i) {
        var o :| o in left.Keys && o in left && o in Names(reqs) && i in left[o];
        assert Get(left, o) == Left(file, reqs, o);
        LeftIs(file, reqs, o, i);
      }
      if i < |file| && file[i].owner.Some? {
        var o := file[i].owner.value;
        assert Get(left, o) == Left(file, reqs, o);
        LeftIs(file, reqs, o, i);
      }
    }
  }

  // ------------------------------------------------------------------ whole rewrites

  /** sdssplitlen at the line ends; an empty file has no lines. */
  function SplitLines(text: string): seq<string> {
    if text == "" then [] else Pieces(text, "")
  }

  function Pieces(text: string, current: string): seq<string>
    decreases |text|
  {
    if text == "" then [current]
    else if text[0] == '\n' then [current] + Pieces(text[1..], "")
    else Pieces(text[1..], current + [text[0]])
  }

  /** The lines of the new file: those of the old one as they are at the end, and those appended. */
  ghost function Rewritten(text: string, lookup: string -> Option<string>, sentinel: bool, forceWrite: bool, reqs: seq<Request>)
    : (lines: seq<string>)
    ensures var file := ReadAll(SplitLines(text), lookup, sentinel);
            && |file| <= |lines| && (forall i :: 0 <= i < |file| ==> lines[i] == Final(file, reqs, i))
            && lines[|file|..] == Tail(file, forceWrite, reqs)
  {
    var file := ReadAll(SplitLines(text), lookup, sentinel);
    seq(|file|, i requires 0 <= i < |file| => Final(file, reqs, i)) + Tail(file, forceWrite, reqs)
  }

  /** Of empty lines in a row only the first. */
  function Squeezed(lines: seq<string>): seq<string> {
    if lines == [] then []
    else
      var n := |lines| - 1;
      Squeezed(lines[..n]) + if lines[n] == "" && n > 0 && lines[n - 1] == "" then [] else [lines[n]]
  }

  function Glued(lines: seq<string>): string {
    if lines == [] then "" else Glued(lines[..|lines| - 1]) + lines[|lines| - 1] + "\n"
  }

  /**
    rewriteConfig, from the old content to the new, for any file and any requests. A line of
    a requested option holds the line asked for in its turn, or nothing; comments and the lines
    of other options are where they were, as they were; and forced lines that found no old one
    are at the end, in the order of the requests, behind the signature. Of empty lines in a row
    one is left.
  */
  method RewriteConfig(text: string, lookup: string -> Option<string>, sentinel: bool, forceWrite: bool, reqs: seq<Request>)
    returns (content: string)
    ensures content == Glued(Squeezed(Rewritten(text, lookup, sentinel, forceWrite, reqs)))
  {
    hide *;
    var state := new RewriteState(forceWrite);
    var lines := SplitLines(text);
    ghost var file := ReadAll(lines, lookup, sentinel);
    state.ReadOldFile(lines, lookup, sentinel);
    assert reqs[..0] == [];
    for i := 0 to |reqs|
      invariant fresh(state) && state.forceWrite == forceWrite && state.After(file, reqs[..i])
    {
      assert reqs[..i + 1] == reqs[..i] + [reqs[i]];
      match reqs[i] {
        case Line(option, line, force) =>
          var taken := state.RewriteLine(option, line, force, file, reqs[..i]);
        case Mark(option) =>
          state.MarkAsProcessed(option, file, reqs[..i]);
      }
    }
    assert reqs[..|reqs|] == reqs;
    state.RemoveOrphaned(file, reqs);
    SameLines(state.lines, Rewritten(text, lookup, sentinel, forceWrite, reqs), |file|);
    content := GetContent(state.lines);
  }

  lemma SameLines(a: seq<string>, b: seq<string>, n: nat)
    requires n <= |a| && n <= |b| && a[n..] == b[n..] && forall i :: 0 <= i < n ==> a[i] == b[i]
    ensures a == b
  {
    assert a == a[..n] + a[n..] && b == b[..n] + b[n..];
  }

  /** Comments, unknown lines and the lines of options that are not requested. */
  lemma OthersKept(text: seq<string>, lookup: string -> Option<string>, sentinel: bool, reqs: seq<Request>, i: nat)
    requires i < |text|
    ensures var old_ := ReadOld(text[i], lookup, sentinel);
            old_.owner.None? || old_.owner.value !in Names(reqs) ==> Final(ReadAll(text, lookup, sentinel), reqs, i) == old_.text
  {
    var file := ReadAll(text, lookup, sentinel);
    if file[i].owner.Some? && file[i].owner.value !in Names(reqs) {
      NoCalls(reqs, file[i].owner.value);
    }
  }

  lemma {:induction false} NoCalls(reqs: seq<Request>, o: string)
    requires o !in Names(reqs)
    ensures Calls(reqs, o) == []
  {
    hide Names;
    if reqs != [] {
      var n := |reqs| - 1;
      assert reqs == reqs[..n] + [reqs[n]];
      RequestsSnoc(reqs[..n], reqs[n], o);
      NoCalls(reqs[..n], o);
    }
  }

  /** The k-th line of a requested option: the k-th line asked for, or nothing if there is no k-th. */
  lemma OwnLines(file: seq<Old>, reqs: seq<Request>, o: string, k: nat)
    requires o in Names(reqs) && k < |OldLines(file, o)|
    ensures OldLines(file, o)[k] < |file|
    ensures Final(file, reqs, OldLines(file, o)[k]) == if k < |Calls(reqs, o)| then Calls(reqs, o)[k].line else ""
  {
    OldLinesRank(file, o);
  }

  /** rewriteConfigGetContentFromState */
  method GetContent(lines: seq<string>) returns (content: string)
    ensures content == Glued(Squeezed(lines))
  {
    content := "";
    var wasEmpty := false;
    for j := 0 to |lines|
      invariant content == Glued(Squeezed(lines[..j])) && (wasEmpty <==> j > 0 && lines[j - 1] == "")
    {
      assert lines[..j + 1][..j] == lines[..j];
      if |lines[j]| == 0 {
        if wasEmpty {
          assert Squeezed(lines[..j]) + [] == Squeezed(lines[..j]);
          continue;
        }
        wasEmpty := true;
      } else {
        wasEmpty := false;
      }
      GluedSnoc(Squeezed(lines[..j]), lines[j]);
      content := content + lines[j];
      content := content + "\n";
    }
    assert lines[..|lines|] == lines;
  }

  lemma GluedSnoc(lines: seq<string>, line: string)
    ensures Glued(lines + [line]) == Glued(lines) + line + "\n"
  {
    assert (lines + [line])[..|lines|] == lines;
  }

  function NotEmpty(lines: seq<string>): seq<string> {
    if lines == [] then []
    else NotEmpty(lines[..|lines| - 1]) + if lines[|lines| - 1] == "" then [] else [lines[|lines| - 1]]
  }

  lemma NotEmptySnoc(lines: seq<string>, line: string)
    ensures NotEmpty(lines + [line]) == NotEmpty(lines) + if line == "" then [] else [line]
  {
    assert (lines + [line])[..|lines|] == lines;
  }

  /** No line that says something is lost, and no two empty ones follow each other. */
  lemma {:induction false} SqueezedKeeps(lines: seq<string>)
    ensures NotEmpty(Squeezed(lines)) == NotEmpty(lines) && Single(Squeezed(lines))
    ensures EndsEmpty(Squeezed(lines)) == EndsEmpty(lines)
  {
    if lines != [] {
      hide NotEmpty, Single;
      var n := |lines| - 1;
      var before, line := lines[..n], lines[n];
      assert lines == before + [line];
      SqueezedKeeps(before);
      NotEmptySnoc(before, line);
      if line == "" && EndsEmpty(before) {
        assert Squeezed(lines) == Squeezed(before) + [] == Squeezed(before);
      } else {
        assert Squeezed(lines) == Squeezed(before) + [line];
        NotEmptySnoc(Squeezed(before), line);
        SingleSnoc(Squeezed(before), line);
      }
    } else {
      assert Single([]);
    }
  }

  predicate EndsEmpty(lines: seq<string>) {
    lines != [] && lines[|lines| - 1] == ""
  }

  predicate Single(lines: seq<string>) {
    forall i :: 0 < i < |lines| ==> lines[i] != "" || lines[i - 1] != ""
  }

  lemma SingleSnoc(lines: seq<string>, line: string)
    requires Single(lines) && !(line == "" && EndsEmpty(lines))
    ensures Single(lines + [line])
  {}

  lemma {:induction false} PiecesOf(line: string, rest: string, current: string)
    requires '\n' !in line
    ensures Pieces(line + ("\n" + rest), current) == [current + line] + Pieces(rest, "")
    decreases |line|
  {
    var all := line + ("\n" + rest);
    if line == "" {
      assert all[1..] == rest && current + line == current;
    } else {
      assert all[1..] == line[1..] + ("\n" + rest);
      PiecesOf(line[1..], rest, current + [line[0]]);
      assert current + [line[0]] + line[1..] == current + line;
    }
  }

  lemma {:induction false} PiecesGlued(lines: seq<string>, rest: string)
    requires forall i :: 0 <= i < |lines| ==> '\n' !in lines[i]
    ensures Pieces(Glued(lines) + rest, "") == lines + Pieces(rest, "")
    decreases |lines|
  {
    if lines == [] {
      assert Glued(lines) + rest == rest;
    } else {
      var n := |lines| - 1;
      var tail := lines[n] + ("\n" + rest);
      assert Glued(lines) + rest == Glued(lines[..n]) + tail;
      PiecesGlued(lines[..n], tail);
      PiecesOf(lines[n], rest, "");
      assert "" + lines[n] == lines[n];
      assert lines == lines[..n] + [lines[n]];
    }
  }

  /** The next rewrite reads the lines that this one wrote, and an empty one behind them. */
  lemma ReadBack(lines: seq<string>)
    requires lines != [] && forall i :: 0 <= i < |lines| ==> '\n' !in lines[i]
    ensures SplitLines(Glued(lines)) == lines + [""]
  {
    PiecesGlued(lines, "");
    assert Glued(lines) + "" == Glued(lines) && Glued(lines) != "";
  }

  /** The directives that are not configurations. */
  predicate IsDirective(name: string) {
    name == "include" || name == "rename-command" || name == "user" || name == "loadmodule" || name == "sentinel"
  }

  /** A line belongs to the option of its first word, in whatever case, or to the one of which that is an alias. */
  lemma FirstWordOwns(word: string, rest: string, lookup: string -> Option<string>, sentinel: bool)
    requires Clean(word) && word != "" && !IsSpace(word[0]) && SplitArgs(rest).Some? && (Lower(word) == "sentinel" ==> !sentinel)
    ensures OwnerOf(word + (" " + rest), lookup, sentinel) ==
            if IsDirective(Lower(word)) then Some(Lower(word))
            else match lookup(Lower(word)) case None => None case Some(primary) => Some(Lower(primary))
  {
    SplitWord(word, rest);
    hide SplitArgs;
  }

  /** So a line that starts with the name of a configuration stays as it is and is recorded for it. */
  lemma ConfigurationKept(word: string, rest: string, lookup: string -> Option<string>, sentinel: bool, primary: string)
    requires Clean(word) && word != "" && !IsSpace(word[0]) && word[0] != '#' && SplitArgs(rest).Some?
    requires !IsDirective(Lower(word)) && lookup(Lower(word)) == Some(primary) && Trim(word + (" " + rest)) == word + (" " + rest)
    ensures ReadOld(word + (" " + rest), lookup, sentinel) == Old(word + (" " + rest), Some(Lower(primary)))
  {
    FirstWordOwns(word, rest, lookup, sentinel);
    hide SplitArgs, OwnerOf;
    assert (word + (" " + rest))[0] == word[0];
  }

  /** A sentinel directive belongs to the option of the same two words, in whatever case. */
  lemma CaseIgnored(line: string, lookup: string -> Option<string>, argv: seq<string>, r: Request)
    requires SplitArgs(line) == Some(argv) && |argv| > 1 && Lower(argv[0]) == "sentinel"
    requires Lower(r.option) == Lower(argv[0] + " " + argv[1])
    ensures OwnerOf(line, lookup, true) == Some(r.Key())
  {
    hide SplitArgs;
    assert Lower(argv[0] + " " + argv[1]) == Lower(argv[0]) + " " + Lower(argv[1]);
  }
}
