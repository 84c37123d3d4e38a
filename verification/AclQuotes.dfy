/**
  Quotes in ACL rules (src/acl.c, src/sds.c): what the rules become when sdssplitargs
  splits them, and what the check of ACLDescribeSelectorCommandRules makes of that.
*/
module AclQuotes {
  import opened Wrappers
  import opened Sds
  import opened AclRules
  import opened Acl

  // ------------------------------------------------ quotes that reach over a space

  /** Between a space and a quote behind it there is a bar. */
  ghost predicate BarAfter(s: string) {
    forall a, i :: 0 <= a < i < |s| && s[a] == ' ' && IsQuote(s[i]) ==> BarBetween(s, a, i)
  }

  ghost predicate BarBetween(s: string, a: nat, i: nat)
    requires i <= |s|
  {
    exists b :: a < b < i && s[b] == '|'
  }

  lemma BarSuffix(s: string, k: nat)
    requires k <= |s| && BarAfter(s)
    ensures BarAfter(s[k..])
  {
    var r := s[k..];
    forall a, i | 0 <= a < i < |r| && r[a] == ' ' && IsQuote(r[i])
      ensures BarBetween(r, a, i)
    {
      assert s[k + a] == ' ' && IsQuote(s[k + i]);
      var b :| k + a < b < k + i && s[b] == '|';
      assert r[b - k] == '|';
    }
  }

  /** A space, and a bar behind it. */
  ghost predicate SpaceThenBar(w: string) {
    exists a, b :: 0 <= a < b < |w| && w[a] == ' ' && w[b] == '|'
  }

  /** What is not a space or has a bar behind it. */
  ghost predicate Tame(w: string) {
    NoNul(w) && (Spaceless(w) || SpaceThenBar(w))
  }

  /** Without backslashes quoted text is read as it stands. */
  lemma {:induction false} QuotedVerbatim(s: string, current: string) returns (e: nat)
    requires NoNul(s) && '\\' !in s
    ensures var r := Quoted(s, current);
            r.Argument? ==> e < |s| && s[e] == '"' && r.text == current + s[..e] && r.rest == s[e + 1..]
    decreases |s|
  {
    e := 0;
    if s != "" {
      assert s[0] in s;
      if s[0] == '"' {
        assert current + s[..0] == current;
      } else {
        var k := QuotedVerbatim(s[1..], current + [s[0]]);
        e := k + 1;
        if Quoted(s, current).Argument? {
          Verbatim(s, current, k);
        }
      }
    }
  }

  lemma Verbatim(s: string, current: string, k: nat)
    requires k + 1 < |s|
    ensures current + [s[0]] + s[1..][..k] == current + s[..k + 1] && s[1..][k + 1..] == s[k + 2..]
  {
    assert s[..k + 1] == [s[0]] + s[1..][..k];
  }

  lemma {:induction false} SingleVerbatim(s: string, current: string) returns (e: nat)
    requires NoNul(s) && '\\' !in s
    ensures var r := SingleQuoted(s, current);
            r.Argument? ==> e < |s| && s[e] == '\'' && r.text == current + s[..e] && r.rest == s[e + 1..]
    decreases |s|
  {
    e := 0;
    if s != "" {
      assert s[0] in s;
      if s[0] == '\'' {
        assert current + s[..0] == current;
      } else {
        var k := SingleVerbatim(s[1..], current + [s[0]]);
        e := k + 1;
        if SingleQuoted(s, current).Argument? {
          Verbatim(s, current, k);
        }
      }
    }
  }

  /** The text in quotes: if they reach over a space, there is a bar behind it. */
  lemma EnclosedTame(s: string, current: string, e: nat)
    requires NoNul(s) && BarAfter(s) && Spaceless(current) && e < |s| && IsQuote(s[e])
    ensures Tame(current + s[..e])
  {
    var w := current + s[..e];
    var n := |current|;
    if !Spaceless(w) {
      var i :| 0 <= i < |w| && !(w[i] != ' ' && w[i] != '\0');
      assert i >= n && w[i] == s[i - n] == ' ';
      assert BarBetween(s, i - n, e);
      var b :| i - n < b < e && s[b] == '|';
      assert w[n + b] == '|';
    }
  }

  lemma {:induction false} BareTame(s: string, current: string) returns (k: nat)
    requires NoNul(s) && '\\' !in s && BarAfter(s) && Spaceless(current)
    ensures var r := Bare(s, current); r.Argument? ==> Tame(r.text) && k <= |s| && r.rest == s[k..]
    decreases |s|
  {
    k := 0;
    hide Quoted, SingleQuoted, BarAfter;
    if s != "" {
      var rest := s[1..];
      BarSuffix(s, 1);
      if EndsWord(s[0]) {
        k := 1;
      } else if s[0] == '"' {
        var e := QuotedVerbatim(rest, current);
        if Quoted(rest, current).Argument? {
          EnclosedTame(rest, current, e);
          k := e + 2;
        }
      } else if s[0] == '\'' {
        var e := SingleVerbatim(rest, current);
        if SingleQuoted(rest, current).Argument? {
          EnclosedTame(rest, current, e);
          k := e + 2;
        }
      } else {
        var j := BareTame(rest, current + [s[0]]);
        k := j + 1;
      }
    }
  }

  lemma {:induction false} SplitTame(s: string)
    requires NoNul(s) && '\\' !in s && BarAfter(s)
    ensures var r := SplitArgs(s); r.Some? ==> forall i :: 0 <= i < |r.value| ==> Tame(r.value[i])
    decreases |s|
  {
    hide Bare, BarAfter, Tame;
    if s != "" {
      if IsSpace(s[0]) {
        BarSuffix(s, 1);
        SplitTame(s[1..]);
      } else {
        var k := BareTame(s, "");
        var r := Bare(s, "");
        if r.Argument? {
          BarSuffix(s, k);
          SplitTame(r.rest);
          if SplitArgs(r.rest).Some? {
            var others := SplitArgs(r.rest).value;
            var all := [r.text] + others;
            assert SplitArgs(s) == Some(all);
            forall i | 0 <= i < |all| ensures Tame(all[i]) {
              assert all[i] == if i == 0 then r.text else others[i - 1];
            }
          }
        }
      }
    }
  }

  // ------------------------------------------------------------- the rules are like that

  /** Every quote has a bar before it. */
  ghost predicate BarBefore(w: string) {
    forall i :: 0 <= i < |w| && IsQuote(w[i]) ==> '|' in w[..i]
  }

  lemma {:induction false} JoinBars(rules: seq<string>)
    requires forall i :: 0 <= i < |rules| ==> Spaceless(rules[i]) && BarBefore(rules[i])
    ensures BarAfter(Join(rules))
  {
    if |rules| == 1 {
      assert Join(rules) == rules[0];
    } else if |rules| > 1 {
      var n := |rules| - 1;
      JoinBars(rules[..n]);
      OneMoreBar(Join(rules[..n]), rules[n]);
    }
  }

  lemma SpaceBefore(head: string, w: string, a: nat)
    requires Spaceless(w) && a < |head| + 1 + |w|
    ensures (head + " " + w)[a] == ' ' ==> a <= |head|
  {
    assert a > |head| ==> (head + " " + w)[a] == w[a - |head| - 1];
  }

  lemma OneMoreBar(head: string, w: string)
    requires BarAfter(head) && Spaceless(w) && BarBefore(w)
    ensures BarAfter(head + " " + w)
  {
    var s := head + " " + w;
    var m := |head| + 1;
    forall a, i | 0 <= a < i < |s| && s[a] == ' ' && IsQuote(s[i])
      ensures BarBetween(s, a, i)
    {
      if i < m {
        assert IsQuote(head[i]) && head[a] == ' ';
        var b :| a < b < i && head[b] == '|';
        assert s[b] == '|';
      } else {
        assert s[i] == w[i - m];
        var b :| 0 <= b < i - m && w[..i - m][b] == '|';
        assert s[m + b] == '|';
        SpaceBefore(head, w, a);
      }
    }
  }

  /** Only a first argument can hold a quote. */
  lemma QuoteInArgument(t: Table, cats: set<string>, r: Rule, i: nat)
    requires GoodTable(t) && GoodCats(cats) && Valid(t, cats, r) && i < |r.name|
    ensures IsQuote(r.name[i]) ==> exists b :: 0 <= b < i && r.name[b] == '|'
  {
    hide Lookup, LastBar;
    var name := r.name;
    if name[0] == '@' {
      assert i > 0 ==> name[1..][i - 1] == name[i];
    } else {
      match Lookup(t, name) {
        case Top(c) =>
          assert GoodName(c.name);
        case Sub(c, sub) =>
          assert GoodName(c.name) && GoodName(sub.name);
          assert name[|c.name|] == '|';
          assert i < |c.name| ==> name[i] == c.name[i];
        case NotFound =>
          var bar := LastBar(name);
          var c := Lookup(t, name[..bar]).cmd;
          assert GoodName(c.name);
          assert i < bar ==> name[..bar][i] == c.name[i];
          assert name[bar] == '|';
      }
    }
  }

  lemma ValidBars(t: Table, cats: set<string>, r: Rule)
    requires GoodTable(t) && GoodCats(cats) && Valid(t, cats, r)
    ensures Spaceless(Token(r)) && BarBefore(Token(r))
  {
    hide GoodTable, GoodCats, EffectOf;
    var w := Token(r);
    forall i | 0 <= i < |w| && IsQuote(w[i])
      ensures '|' in w[..i]
    {
      assert i > 0 && w[i] == r.name[i - 1];
      QuoteInArgument(t, cats, r, i - 1);
      var b :| 0 <= b < i - 1 && r.name[b] == '|';
      assert w[..i][b + 1] == '|';
    }
  }

  // ----------------------------------------------------------- and are refused if so

  lemma NotAName(t: Table, name: string, a: nat)
    requires GoodTable(t) && a < |name|
    ensures name[a] == ' ' ==> Lookup(t, name) == NotFound
  {
    match Lookup(t, name) {
      case NotFound =>
      case Top(c) =>
        assert GoodName(c.name);
      case Sub(c, sub) =>
        assert GoodName(c.name) && GoodName(sub.name);
        var n := |c.name|;
        assert name[n] == '|' && (a < n ==> name[a] == c.name[a]) && (a > n ==> name[a] == sub.name[a - n - 1]);
    }
  }

  /** The operations for all commands have no spaces. */
  lemma NotAll(op: string, a: nat)
    requires a < |op| && op[a] == ' '
    ensures op != "allcommands" && op != "nocommands" && op != "+@all" && op != "-@all"
  {
    assert Spaceless("allcommands") && Spaceless("nocommands") && Spaceless("+@all") && Spaceless("-@all");
  }

  /** A space before the last bar makes an operation unknown. */
  lemma SpaceRefused(t: Table, cats: set<string>, op: string)
    requires GoodTable(t) && GoodCats(cats) && SpaceThenBar(op)
    ensures Parse(t, cats, op).Refused?
  {
    hide Lookup, GoodTable;
    var a, b :| 0 <= a < b < |op| && op[a] == ' ' && op[b] == '|';
    var low := Lower(op);
    assert low[a] == ' ' && low[b] == '|';
    NotAll(low, a);
    if low[0] == '+' || low[0] == '-' {
      NameRefused(t, low[1..], a - 1, b - 1);
      if low[1] == '@' {
        assert low[2..][b - 2] == '|';
      }
    }
  }

  lemma NameRefused(t: Table, text: string, a: nat, b: nat)
    requires GoodTable(t) && a < b < |text| && text[a] == ' ' && text[b] == '|'
    ensures ParseDeny(t, text).Refused? && ParseAllow(t, text).Refused?
  {
    hide Lookup, GoodTable;
    NotAName(t, text, a);
    var bar := LastBar(text);
    assert b <= bar < |text| && text[..bar][a] == ' ';
    NotAName(t, text[..bar], a);
  }

  /** Unless a rule holds a backslash, none of the arguments that the rules split into is set with a space in it. */
  lemma WithoutBackslash(t: Table, cats: set<string>, s: Selector)
    requires GoodTable(t) && GoodCats(cats) && Consistent(t, cats, s) && '\\' !in Join(Tokens(s.rules))
    ensures var r := SplitArgs(Join(Tokens(s.rules))); r.Some? ==> AllSettable(t, cats, r.value)
  {
    hide SplitArgs, Join, Parse, GoodTable, GoodCats, EffectOf, BarAfter, BarBefore, Replays;
    var ts := Tokens(s.rules);
    TokensAreRules(t, cats, s.rules);
    JoinNoNul(ts);
    forall i | 0 <= i < |ts|
      ensures Spaceless(ts[i]) && BarBefore(ts[i])
    {
      assert Valid(t, cats, s.rules[i]);
      ValidBars(t, cats, s.rules[i]);
    }
    JoinBars(ts);
    SplitTame(Join(ts));
    var r := SplitArgs(Join(ts));
    if r.Some? {
      forall i | 0 <= i < |r.value|
        ensures Settable(t, cats, r.value[i])
      {
        assert Tame(r.value[i]);
        if SpaceThenBar(r.value[i]) {
          SpaceRefused(t, cats, r.value[i]);
        }
      }
    }
  }

  // ------------------------------------------------------- the check on a description

  /**
    The check of ACLDescribeSelectorCommandRules on a fake selector fails exactly if
    recomputing this one would fail, or would change its bitmap.
  */
  lemma DescribeFails(t: Table, cats: set<string>, s: Selector)
    ensures var again := Recompute(t, cats, s, Join(Tokens(s.rules)));
            Describe(t, cats, s) == if again.Some? && again.value.bits == s.bits then Some(Join(Description(s))) else None
  {
    hide Apply, SplitArgs, Join, Tokens;
    var split := SplitArgs(Join(Tokens(s.rules)));
    if split.Some? {
      BaseAnywhere(t, cats, s.bits, s);
      BaseAnywhere(t, cats, s.bits, EMPTY);
      ApplyAllFirst(t, cats, EMPTY, Base(s.bits), split.value);
    }
  }

  /** The assertion in it fails for +get|". */
  lemma QuoteFails(t: Table, cats: set<string>, get: Command)
    requires GoodTable(t) && get.name == "get" && get.subs == [] && FindCommand(t, "get") == Some(get)
    ensures Describe(t, cats, Run(t, cats, EMPTY, ["+get|\""])) == None
  {
    hide *;
    QuoteBreaksRules(t, cats, get);
    DescribeFails(t, cats, Run(t, cats, EMPTY, ["+get|\""]));
  }

  lemma SplitPair()
    ensures SplitArgs("+get|\"a\"") == Some(["+get|a"])
  {
    hide Bare, Quoted;
    assert "+get|\"a\"" == "+get|" + "\"" + "a\"";
    BareQuote("+get|", "a\"", "");
    CharBack('a', "\"", "+get|");
    QuotesClose("", "+get|" + "a");
    assert ['a'] + "\"" == "a\"" && "\"" + "" == "\"" && "" + "+get|" == "+get|" && "+get|" + ['a'] == "+get|a";
    assert SplitArgs("") == Some([]) && ["+get|a"] + [] == ["+get|a"];
  }

  /** +get|"a" passes the check, and yet its description sets another first argument. */
  lemma QuotesPass(t: Table, cats: set<string>, get: Command)
    requires GoodTable(t) && get.name == "get" && get.subs == [] && FindCommand(t, "get") == Some(get)
    ensures var s := Run(t, cats, EMPTY, ["+get|\"a\""]);
            && Describe(t, cats, s) == Some(Join(Description(s)))
            && !Same(Recompute(t, cats, s, Join(Tokens(s.rules))), s)
  {
    hide Apply, Join, SplitArgs, GoodTable, FindCommand, Describe;
    var op := "+get|\"a\"";
    Literals();
    GetArgument(t, cats, get, EMPTY, "\"a\"");
    RunOne(t, cats, EMPTY, op);
    var s := Run(t, cats, EMPTY, [op]);
    hide Run, Tokens;
    assert s.bits == {} && s.rules == [Rule(true, "get|\"a\"")];
    TextOf(s.rules[0], op);
    SplitPair();
    BaseAnywhere(t, cats, s.bits, s);
    var clean := Selector(BaseBits(s.bits), map[], []);
    GetArgument(t, cats, get, clean, "a");
    OneOp(t, cats, clean, "+get|a");
    DescribeFails(t, cats, s);
    assert Rule(true, "get|a") != s.rules[0] by {
      assert |"get|a"| != |s.rules[0].name|;
    }
  }

  lemma Literals()
    ensures "+get|" + "\"a\"" == "+get|\"a\"" && "get|" + "\"a\"" == "get|\"a\""
    ensures "+get|" + "a" == "+get|a" && "get|" + "a" == "get|a"
    ensures IsLower("\"a\"") && IsLower("a") && Token(Rule(true, "get|\"a\"")) == "+get|\"a\""
  {
    assert Lower("\"a\"") == "\"a\"" && Lower("a") == "a";
  }

  lemma TextOf(r: Rule, op: string)
    requires Token(r) == op
    ensures Join(Tokens([r])) == op
  {
    assert Tokens([r]) == [op];
    JoinOne(op);
  }

  lemma OneOp(t: Table, cats: set<string>, s: Selector, op: string)
    ensures ApplyAll(t, cats, s, [op]) == Apply(t, cats, s, op)
  {
    assert [op][..0] == [];
  }
}
