/**
  The command_rules string of an ACL selector (src/acl.c): signed rules joined by
  single spaces, edited in place by ACLSelectorRemoveCommandRule.
*/
module AclRules {
  import opened Wrappers
  import opened Sds

  /** A C string without spaces. */
  predicate Spaceless(s: string) {
    forall i :: 0 <= i < |s| ==> s[i] != ' ' && s[i] != '\0'
  }

  /** A sign and a name. */
  predicate IsRule(s: string) {
    |s| >= 1 && (s[0] == '+' || s[0] == '-') && Spaceless(s)
  }

  predicate AllRules(rules: seq<string>) {
    forall i :: 0 <= i < |rules| ==> IsRule(rules[i])
  }

  function Join(rules: seq<string>): string {
    if rules == [] then ""
    else if |rules| == 1 then rules[0]
    else Join(rules[..|rules| - 1]) + " " + rules[|rules| - 1]
  }

  /** The name of an existing rule is the new rule, or a '|' extension of it. */
  predicate Covered(name: string, newRule: string) {
    newRule <= name && (|name| == |newRule| || name[|newRule|] == '|')
  }

  /** The rules that a new rule leaves in place. */
  function Without(rules: seq<string>, newRule: string): seq<string>
    requires AllRules(rules)
  {
    if rules == [] then []
    else
      var last := rules[|rules| - 1];
      var before := Without(rules[..|rules| - 1], newRule);
      if Covered(last[1..], newRule) then before else before + [last]
  }

  lemma {:induction false} WithoutClean(rules: seq<string>, newRule: string)
    requires AllRules(rules)
    ensures AllRules(Without(rules, newRule))
  {
    if rules != [] {
      WithoutClean(rules[..|rules| - 1], newRule);
    }
  }

  lemma {:induction false} WithoutMember(rules: seq<string>, newRule: string, r: string)
    requires AllRules(rules)
    ensures r in Without(rules, newRule) <==> r in rules && !Covered(r[1..], newRule)
  {
    if rules != [] {
      var n := |rules| - 1;
      WithoutMember(rules[..n], newRule, r);
      assert rules == rules[..n] + [rules[n]];
    }
  }

  // ------------------------------------------------------------- joining rules

  /** Where the next rule starts after the ones in `kept`. */
  function NextStart(kept: seq<string>): nat {
    if kept == [] then 0 else |Join(kept)| + 1
  }

  lemma JoinSnoc(kept: seq<string>, r: string)
    ensures Join(kept + [r]) == if kept == [] then r else Join(kept) + " " + r
  {
    assert (kept + [r])[..|kept|] == kept;
  }

  /** Joining all of them: those before, the separator if there is one, and those after. */
  lemma {:induction false} JoinSplit(a: seq<string>, b: seq<string>)
    ensures Join(a + b) == if b == [] then Join(a) else if a == [] then Join(b) else Join(a) + " " + Join(b)
    decreases b
  {
    hide Join;
    if b == [] {
      assert a + b == a;
    } else if a == [] {
      assert a + b == b;
    } else {
      var n := |b| - 1;
      JoinSplit(a, b[..n]);
      assert a + b == (a + b[..n]) + [b[n]];
      JoinSnoc(a + b[..n], b[n]);
      assert b == b[..n] + [b[n]];
      JoinSnoc(b[..n], b[n]);
    }
  }

  /** The first rule from position NextStart(kept) and what surrounds it. */
  lemma JoinAround(kept: seq<string>, r: string, rest: seq<string>)
    ensures var s := Join(kept + [r] + rest);
            var p := NextStart(kept);
            && p + |r| <= |s| && s[p..p + |r|] == r
            && (rest == [] ==> p + |r| == |s|)
            && (rest != [] ==> p + |r| < |s| && s[p + |r|] == ' ' && s[p + |r| + 1..] == Join(rest))
            && s[..p] == (if kept == [] then "" else Join(kept) + " ")
  {
    hide Join;
    assert kept + [r] + rest == kept + ([r] + rest);
    JoinSplit(kept, [r] + rest);
    JoinSplit([r], rest);
    JoinOne(r);
  }

  lemma JoinOne(r: string)
    ensures Join([r]) == r
  {}

  // -------------------------------------------------------------- in-place edit

  /** strchr(p, ' '), or the end of the string. */
  method RuleEnd(buf: array<char>, from: nat, len: nat) returns (end: nat)
    requires from <= len <= buf.Length
    ensures from <= end <= len
    ensures forall i :: from <= i < end ==> buf[i] != ' '
    ensures end < len ==> buf[end] == ' '
  {
    end := from;
    while end < len && buf[end] != ' '
      invariant from <= end <= len
      invariant forall i :: from <= i < end ==> buf[i] != ' '
    {
      end := end + 1;
    }
  }

  /** memmove(buf + to, buf + from, len - from). */
  method Memmove(buf: array<char>, to: nat, from: nat, len: nat) returns (newLen: nat)
    requires to <= from <= len <= buf.Length
    modifies buf
    ensures newLen == to + (len - from)
    ensures buf[..newLen] == old(buf[..to]) + old(buf[from..len])
  {
    newLen := to + (len - from);
    ghost var was, d := buf[..], from - to;
    var i := to;
    while i < newLen
      invariant to <= i <= newLen
      invariant forall j {:trigger buf[j]} :: to <= j < i ==> buf[j] == was[j + d]
      invariant forall j {:trigger buf[j]} :: 0 <= j < to || i <= j < buf.Length ==> buf[j] == was[j]
    {
      buf[i] := buf[i + (from - to)];
      i := i + 1;
    }
    Moved(was, buf[..newLen], to, from, len);
  }

  lemma Moved(was: string, now: string, to: nat, from: nat, len: nat)
    requires to <= from <= len <= |was| && |now| == to + (len - from)
    requires forall j {:trigger now[j]} :: 0 <= j < to ==> now[j] == was[j]
    requires forall j {:trigger now[j]} :: to <= j < |now| ==> now[j] == was[j + (from - to)]
    ensures now == was[..to] + was[from..len]
  {}

  /** The comparison of an existing rule (without its sign) with the new one. */
  method Matches(buf: array<char>, from: nat, end: nat, newRule: string) returns (m: bool)
    requires from <= end <= buf.Length
    ensures m == Covered(buf[from..end], newRule)
  {
    var existing := end - from;
    var least := if existing < |newRule| then existing else |newRule|;
    var i := 0;
    while i < least && buf[from + i] == newRule[i]
      invariant 0 <= i <= least
      invariant buf[from..from + i] == newRule[..i]
    {
      i := i + 1;
    }
    if i < least {
      assert buf[from..end][i] != newRule[i];
      return false;
    }
    assert buf[from..end][..least] == newRule[..least];
    m := existing == |newRule| || (existing > |newRule| && buf[from + |newRule|] == '|');
  }

  /** The end of the rule at p, and its text. */
  method FindRule(buf: array<char>, p: nat, len: nat, ghost kept: seq<string>, ghost r: string, ghost rest: seq<string>)
    returns (ruleEnd: nat)
    requires len <= buf.Length && p == NextStart(kept) < len
    requires buf[..len] == Join(kept + [r] + rest) && IsRule(r)
    ensures ruleEnd == p + |r| <= len && buf[p + 1..ruleEnd] == r[1..]
    ensures ruleEnd < len <==> rest != []
  {
    hide Join, NextStart, IsRule;
    ruleEnd := RuleEnd(buf, p + 1, len);
    EndOfRule(buf[..len], kept, r, rest, ruleEnd);
    Slice(buf, len, p + 1, ruleEnd);
  }

  lemma Slice(buf: array<char>, len: nat, i: nat, j: nat)
    requires i <= j <= len <= buf.Length
    ensures buf[i..j] == buf[..len][i..j]
  {}

  lemma EndOfRule(s: string, kept: seq<string>, r: string, rest: seq<string>, end: nat)
    requires s == Join(kept + [r] + rest) && IsRule(r)
    requires NextStart(kept) + 1 <= end <= |s|
    requires forall i :: NextStart(kept) + 1 <= i < end ==> s[i] != ' '
    requires end < |s| ==> s[end] == ' '
    ensures end == NextStart(kept) + |r| && s[NextStart(kept) + 1..end] == r[1..]
    ensures end < |s| <==> rest != []
  {
    hide Join, NextStart;
    JoinAround(kept, r, rest);
    var p := NextStart(kept);
    assert s[p + 1..p + |r|] == s[p..p + |r|][1..];
  }

  lemma WithoutSnoc(rules: seq<string>, newRule: string, n: nat)
    requires AllRules(rules) && n < |rules|
    ensures Without(rules[..n + 1], newRule)
         == Without(rules[..n], newRule) + (if Covered(rules[n][1..], newRule) then [] else [rules[n]])
  {
    assert rules[..n + 1][..n] == rules[..n];
  }

  /** One turn of the loop: the rule r at p is dropped, or passed over. */
  method Turn(buf: array<char>, p: nat, len: nat, newRule: string, ghost kept: seq<string>, ghost r: string, ghost rest: seq<string>)
    returns (newLen: nat, next: nat)
    requires len <= buf.Length && p == NextStart(kept) < len
    requires buf[..len] == Join(kept + [r] + rest) && IsRule(r)
    modifies buf
    ensures newLen <= len && next <= newLen
    ensures var kept' := if Covered(r[1..], newRule) then kept else kept + [r];
            && buf[..newLen] == Join(kept' + rest)
            && next == if rest == [] then newLen else NextStart(kept')
  {
    hide Join, Covered;
    var ruleEnd := FindRule(buf, p, len, kept, r, rest);
    var copyPosition := if ruleEnd == len && p != 0 then p - 1 else p;
    var copyEnd := if ruleEnd < len then ruleEnd + 1 else ruleEnd;
    var m := Matches(buf, p + 1, ruleEnd, newRule);
    if m {
      Removed(buf[..len], kept, r, rest, copyPosition, copyEnd);
      newLen := Memmove(buf, copyPosition, copyEnd, len);
      next := copyPosition;
    } else {
      JoinSnoc(kept, r);
      newLen, next := len, copyEnd;
    }
  }

  /** After `done` rules: s holds those kept and the rest, and p is where the rest starts. */
  ghost predicate Halfway(s: string, p: nat, rules: seq<string>, done: nat, newRule: string)
    requires AllRules(rules) && done <= |rules|
  {
    var kept := Without(rules[..done], newRule);
    s == Join(kept + rules[done..]) && p == if done == |rules| then |s| else NextStart(kept)
  }

  lemma HalfwayStart(s: string, rules: seq<string>, newRule: string)
    requires AllRules(rules) && s == Join(rules)
    ensures Halfway(s, 0, rules, 0, newRule)
  {
    assert [] + rules[0..] == rules;
  }

  lemma HalfwayNext(s: string, p: nat, rules: seq<string>, done: nat, newRule: string)
    requires AllRules(rules) && done < |rules| && Halfway(s, p, rules, done, newRule)
    ensures p == NextStart(Without(rules[..done], newRule))
    ensures s == Join(Without(rules[..done], newRule) + [rules[done]] + rules[done + 1..])
    ensures p < |s|
  {
    hide Without, Join;
    var kept := Without(rules[..done], newRule);
    assert kept + rules[done..] == kept + [rules[done]] + rules[done + 1..];
    JoinAround(kept, rules[done], rules[done + 1..]);
  }

  lemma HalfwayStep(s: string, p: nat, rules: seq<string>, done: nat, newRule: string)
    requires AllRules(rules) && done < |rules|
    requires var r, kept := rules[done], Without(rules[..done], newRule);
             var kept' := if Covered(r[1..], newRule) then kept else kept + [r];
             s == Join(kept' + rules[done + 1..]) && p == if rules[done + 1..] == [] then |s| else NextStart(kept')
    ensures Halfway(s, p, rules, done + 1, newRule)
  {
    hide Without, Join, Covered;
    WithoutSnoc(rules, newRule, done);
    assert Without(rules[..done], newRule) + [] == Without(rules[..done], newRule);
  }

  lemma HalfwayEnd(s: string, p: nat, rules: seq<string>, done: nat, newRule: string)
    requires AllRules(rules) && done <= |rules| && Halfway(s, p, rules, done, newRule) && p >= |s|
    ensures done == |rules| && s == Join(Without(rules, newRule))
  {
    if done < |rules| {
      HalfwayNext(s, p, rules, done, newRule);
    } else {
      assert rules[..done] == rules && rules[done..] == [];
      assert Without(rules, newRule) + [] == Without(rules, newRule);
    }
  }

  /** ACLSelectorRemoveCommandRule on the first len bytes of buf. */
  method RemoveCommandRule(buf: array<char>, len: nat, newRule: string, ghost rules: seq<string>) returns (newLen: nat)
    requires len <= buf.Length && AllRules(rules) && buf[..len] == Join(rules)
    modifies buf
    ensures newLen <= len
    ensures buf[..newLen] == Join(Without(rules, newRule))
  {
    hide Without, Join, Covered, NextStart, Halfway;
    newLen := len;
    var p := 0;
    ghost var done := 0;
    HalfwayStart(buf[..len], rules, newRule);
    while p < newLen
      invariant 0 <= p <= newLen <= len && done <= |rules|
      invariant Halfway(buf[..newLen], p, rules, done, newRule)
      decreases |rules| - done
    {
      NotDone(buf[..newLen], p, rules, done, newRule);
      HalfwayNext(buf[..newLen], p, rules, done, newRule);
      newLen, p := Turn(buf, p, newLen, newRule, Without(rules[..done], newRule), rules[done], rules[done + 1..]);
      HalfwayStep(buf[..newLen], p, rules, done, newRule);
      done := done + 1;
    }
    HalfwayEnd(buf[..newLen], p, rules, done, newRule);
  }

  lemma NotDone(s: string, p: nat, rules: seq<string>, done: nat, newRule: string)
    requires AllRules(rules) && done <= |rules| && Halfway(s, p, rules, done, newRule) && p < |s|
    ensures done < |rules|
  {}

  lemma Removed(s: string, kept: seq<string>, r: string, rest: seq<string>, to: nat, from: nat)
    requires s == Join(kept + [r] + rest)
    requires var p := NextStart(kept);
             && from == (if rest == [] then |s| else p + |r| + 1)
             && to == (if rest == [] && p != 0 then p - 1 else p)
    ensures to <= from <= |s|
    ensures s[..to] + s[from..] == Join(kept + rest)
    ensures rest == [] ==> to == |Join(kept)|
  {
    JoinAround(kept, r, rest);
    JoinSplit(kept, rest);
    if rest == [] {
      assert kept + rest == kept;
    }
  }

  // ------------------------------------------------------------------ splitting

  predicate AllClean(rules: seq<string>) {
    forall i :: 0 <= i < |rules| ==> Clean(rules[i])
  }

  lemma {:induction false} JoinNoNul(rules: seq<string>)
    requires AllRules(rules)
    ensures NoNul(Join(rules))
  {
    if rules != [] {
      JoinNoNul(rules[..|rules| - 1]);
    }
  }

  lemma {:induction false} JoinSize(rules: seq<string>)
    requires rules != []
    ensures Size(rules) == |Join(rules)| + 1
    decreases rules
  {
    var r, rest := rules[0], rules[1..];
    assert rules == [r] + rest;
    JoinSplit([r], rest);
    if rest != [] {
      JoinSize(rest);
    }
  }

  lemma SplitFirst(r: string, rest: string)
    requires IsRule(r) && Clean(r)
    ensures SplitArgs(r + " " + rest) == Prepend([r], SplitArgs(rest)) && SplitArgs(r) == Some([r])
  {
    hide Bare;
    BareClean(r, " " + rest, "");
    BareClean(r, "", "");
    assert (" " + rest)[1..] == rest && r + (" " + rest) == r + " " + rest && r + "" == r && "" + r == r;
    assert [r] + [] == [r];
  }

  /** Clean rules come back from sdssplitargs as they were. */
  lemma {:induction false} SplitClean(rules: seq<string>)
    requires AllRules(rules) && AllClean(rules)
    ensures SplitArgs(Join(rules)) == Some(rules)
    decreases rules
  {
    if rules != [] {
      hide SplitArgs, Join;
      var r, rest := rules[0], rules[1..];
      assert rules == [r] + rest;
      JoinSplit([r], rest);
      JoinOne(r);
      SplitClean(rest);
      SplitFirst(r, Join(rest));
    }
  }

  /** With a quote the arguments are too short; with another blank in a rule no argument has it. */
  lemma SplitLoses(rules: seq<string>)
    requires AllRules(rules) && !AllClean(rules) && SplitArgs(Join(rules)).Some?
    ensures var argv := SplitArgs(Join(rules)).value; Size(argv) < Size(rules) || AllClean(argv)
  {
    JoinNoNul(rules);
    JoinSize(rules);
    SplitSize(Join(rules));
    if !HasQuote(Join(rules)) {
      SplitWithoutQuotes(Join(rules));
    }
  }

  /** Splitting the joined rules gives the rules exactly if none of them has a quote, a tab or a line end. */
  lemma SplitJoin(rules: seq<string>)
    requires AllRules(rules)
    ensures SplitArgs(Join(rules)) == Some(rules) <==> AllClean(rules)
  {
    if AllClean(rules) {
      SplitClean(rules);
    } else if SplitArgs(Join(rules)).Some? {
      SplitLoses(rules);
    }
  }

  /** The position of the first space, or the length. */
  function WordLength(s: string): (n: nat)
    ensures n <= |s| && (forall i :: 0 <= i < n ==> s[i] != ' ') && (n < |s| ==> s[n] == ' ')
  {
    if s == "" || s[0] == ' ' then 0
    else
      assert forall i :: 1 <= i < |s| ==> s[i] == s[1..][i - 1];
      1 + WordLength(s[1..])
  }

  /** sdssplitlen at single spaces. */
  function SplitSpaces(s: string): seq<string>
    decreases |s|
  {
    var n := WordLength(s);
    if n == |s| then [s] else [s[..n]] + SplitSpaces(s[n + 1..])
  }

  lemma FirstSpace(w: string, rest: string)
    requires Spaceless(w) && (rest == "" || rest[0] == ' ')
    ensures SplitSpaces(w + rest) == if rest == "" then [w] else [w] + SplitSpaces(rest[1..])
  {
    var s := w + rest;
    assert forall i :: 0 <= i < |w| ==> s[i] == w[i];
    assert rest != "" ==> s[|w|] == ' ';
    var n := WordLength(s);
    assert n == |w| && s[..|w|] == w;
    if rest == "" {
      assert s == w;
    } else {
      assert s[|w| + 1..] == rest[1..];
    }
  }
}
