/**
  What an operation of ACL SETUSER on commands does (src/acl.c), told by the command
  table: which operations are accepted, which bits each sets or clears, and which
  first arguments it adds or drops.
*/
module AclEffects {
  import opened Wrappers
  import opened Sds
  import opened AclRules
  import opened Acl

  /** The table is a dict, and so are the subcommands of each command. */
  ghost predicate Distinct(t: Table) {
    && (forall c, d :: c in t && d in t && c.name == d.name ==> c == d)
    && (forall c, s, r :: c in t && s in c.subs && r in c.subs && s.name == r.name ==> s == r)
  }

  function Signed(allow: bool, text: string): string {
    (if allow then "+" else "-") + text
  }

  /** The command itself and its subcommands. */
  ghost function Family(c: Command): iset<int> {
    iset{c.id} + (iset s | s in c.subs :: s.id)
  }

  /** Commands of the category with all of their subcommands, and subcommands of the category. */
  ghost function Members(t: Table, cat: string): iset<int> {
    (iset c, id | c in t && cat in c.cats && id in Family(c) :: id) + (iset c, s | c in t && s in c.subs && cat in s.cats :: s.id)
  }

  /** Those of them whose lists of first arguments go. */
  ghost function Emptied(t: Table, cat: string): iset<int> {
    (iset c | c in t && cat in c.cats :: c.id) + (iset c, s | c in t && s in c.subs && cat in s.cats :: s.id)
  }

  // ----------------------------------------------------------------------- lookup

  lemma {:induction false} FindsCommand(t: Table, c: Command)
    requires c in t && forall d :: d in t && d.name == c.name ==> d == c
    ensures FindCommand(t, c.name) == Some(c)
  {
    if t[0].name == c.name {
      assert t[0] in t;
    } else {
      assert t == [t[0]] + t[1..];
      FindsCommand(t[1..], c);
    }
  }

  lemma {:induction false} FindsSub(subs: seq<Subcommand>, s: Subcommand)
    requires s in subs && forall r :: r in subs && r.name == s.name ==> r == s
    ensures FindSub(subs, s.name) == Some(s)
  {
    if subs[0].name == s.name {
      assert subs[0] in subs;
    } else {
      assert subs == [subs[0]] + subs[1..];
      FindsSub(subs[1..], s);
    }
  }

  lemma BarAt(head: string, tail: string)
    requires '|' !in tail
    ensures LastBar(head + "|" + tail) == |head|
    ensures (head + "|" + tail)[..|head|] == head && (head + "|" + tail)[|head| + 1..] == tail
  {
    var s := head + "|" + tail;
    assert s[|head|] == '|';
    assert forall j :: |head| < j < |s| ==> s[j] == tail[j - |head| - 1];
  }

  lemma LookupTop(t: Table, c: Command)
    requires GoodTable(t) && Distinct(t) && c in t
    ensures Lookup(t, c.name) == Top(c) && LastBar(c.name) == |c.name|
  {
    assert GoodName(c.name);
    FindsCommand(t, c);
  }

  lemma LookupSub(t: Table, c: Command, s: Subcommand)
    requires GoodTable(t) && Distinct(t) && c in t && s in c.subs
    ensures Lookup(t, FullName(c, s)) == Sub(c, s) && Lookup(t, c.name) == Top(c)
    ensures LastBar(FullName(c, s)) == |c.name| && FullName(c, s)[..|c.name|] == c.name && s.name != ""
  {
    assert GoodName(c.name) && GoodName(s.name);
    LookupTop(t, c);
    FindsCommand(t, c);
    FindsSub(c.subs, s);
    BarAt(c.name, s.name);
  }

  lemma SignedParts(allow: bool, text: string)
    ensures var low := Signed(allow, text); low != "" && low[1..] == text && low[0] == (if allow then '+' else '-')
  {}

  // ------------------------------------------------------------------- operations

  /** The bits of the chosen IDs have the value, all others are as they were, and none beyond the bitmap is added. */
  ghost predicate Set(was: set<int>, now: set<int>, chosen: iset<int>, value: bool) {
    && (forall id :: 0 <= id < 1024 ==> (id in now <==> if id in chosen then value else id in was))
    && (forall id :: !(0 <= id < 1024) && id in now ==> id in was)
  }

  /** The lists of the dropped IDs are empty, all others are as they were. */
  ghost predicate Without(was: map<int, set<string>>, now: map<int, set<string>>, dropped: iset<int>) {
    forall id :: ArgsAt(now, id) == if id in dropped then {} else ArgsAt(was, id)
  }

  lemma BitsSet(s: Selector, ids: set<int>, resets: set<int>, value: bool, chosen: iset<int>, dropped: iset<int>)
    requires (forall id :: id in ids <==> id in chosen) && forall id :: id in resets <==> id in dropped
    ensures var e := Bits(ids, resets, value);
            Set(s.bits, ApplyBits(s.bits, e), chosen, value) && Without(s.args, ApplyArgs(s.args, e), dropped)
  {}

  /** An operation on a command goes by its sign. */
  lemma ParseSigned(t: Table, cats: set<string>, op: string, allow: bool, text: string)
    requires Lower(op) == Signed(allow, text) && text != "" && text[0] != '@'
    ensures Parse(t, cats, op) == if allow then ParseAllow(t, text) else ParseDeny(t, text)
  {
    hide ParseAllow, ParseDeny, Lower;
    SignedParts(allow, text);
    assert Lower(op)[1] == text[0];
    assert "+@all"[1] == '@' && "-@all"[1] == '@' && "allcommands"[0] == 'a' && "nocommands"[0] == 'n';
  }

  lemma NameStart(t: Table, c: Command)
    requires GoodTable(t) && c in t
    ensures c.name != "" && c.name[0] != '@'
  {
    assert GoodName(c.name);
    assert c.name[0] in c.name;
  }

  lemma Applied(t: Table, cats: set<string>, s: Selector, op: string, r: Rule, e: Effect)
    requires Parse(t, cats, op) == Change(r) && EffectOf(t, cats, r) == Some(e)
    ensures var now := Apply(t, cats, s, op);
            now.Some? && now.value.bits == ApplyBits(s.bits, e) && now.value.args == ApplyArgs(s.args, e)
  {
    hide Parse, EffectOf, ApplyBits, ApplyArgs, UpdateRules;
  }

  /** +name and -name: the command and its subcommands. */
  lemma CommandSet(t: Table, cats: set<string>, s: Selector, op: string, c: Command, allow: bool)
    requires GoodTable(t) && Distinct(t) && c in t && Lower(op) == Signed(allow, c.name)
    ensures var now := Apply(t, cats, s, op);
            && now.Some? && Set(s.bits, now.value.bits, Family(c), allow)
            && Without(s.args, now.value.args, iset{c.id})
  {
    LookupTop(t, c);
    NameStart(t, c);
    hide Lookup, LastBar, Apply, Parse, ApplyBits, ApplyArgs, Set, Without, GoodTable, Lower;
    ParseSigned(t, cats, op, allow, c.name);
    Applied(t, cats, s, op, Rule(allow, c.name), Bits({c.id} + SubIds(c.subs), {c.id}, allow));
    BitsSet(s, {c.id} + SubIds(c.subs), {c.id}, allow, Family(c), iset{c.id});
  }

  /** +name|sub and -name|sub: the subcommand alone. */
  lemma SubcommandSet(t: Table, cats: set<string>, s: Selector, op: string, c: Command, sub: Subcommand, allow: bool)
    requires GoodTable(t) && Distinct(t) && c in t && sub in c.subs && Lower(op) == Signed(allow, c.name + "|" + sub.name)
    ensures var now := Apply(t, cats, s, op);
            && now.Some? && Set(s.bits, now.value.bits, iset{sub.id}, allow)
            && Without(s.args, now.value.args, iset{sub.id})
  {
    var text := c.name + "|" + sub.name;
    LookupSub(t, c, sub);
    NameStart(t, c);
    assert text[0] == c.name[0];
    hide Lookup, LastBar, Apply, Parse, ApplyBits, ApplyArgs, Set, Without, GoodTable, Lower;
    ParseSigned(t, cats, op, allow, text);
    Applied(t, cats, s, op, Rule(allow, text), Bits({sub.id}, {sub.id}, allow));
    BitsSet(s, {sub.id}, {sub.id}, allow, iset{sub.id}, iset{sub.id});
  }

  /** +name|arg of a command without subcommands: no bit, one more first argument. */
  lemma FirstArgumentSet(t: Table, cats: set<string>, s: Selector, op: string, c: Command, arg: string)
    requires GoodTable(t) && Distinct(t) && c in t && c.subs == [] && arg != "" && '|' !in arg
    requires Lower(op) == Signed(true, c.name + "|" + arg)
    ensures var now := Apply(t, cats, s, op);
            && now.Some? && now.value.bits == s.bits
            && forall id :: ArgsAt(now.value.args, id) == ArgsAt(s.args, id) + if id == c.id then {arg} else {}
  {
    var text := c.name + "|" + arg;
    LookupTop(t, c);
    BarAt(c.name, arg);
    LookupBar(t, text);
    NameStart(t, c);
    assert text[0] == c.name[0];
    hide Lookup, LastBar, Apply, Parse, GoodTable, Lower;
    ParseSigned(t, cats, op, true, text);
    Applied(t, cats, s, op, Rule(true, text), AddArg(c.id, arg));
  }

  /** +@category and -@category. */
  lemma CategorySet(t: Table, cats: set<string>, s: Selector, op: string, cat: string, allow: bool)
    requires cat in cats && cat != "all" && Lower(op) == Signed(allow, "@" + cat)
    ensures var now := Apply(t, cats, s, op);
            && now.Some? && Set(s.bits, now.value.bits, Members(t, cat), allow)
            && Without(s.args, now.value.args, Emptied(t, cat))
  {
    ParseCategory(t, cats, op, cat, allow);
    CategoryIs(t, cat);
    assert ("@" + cat)[1..] == cat;
    hide Apply, Parse, ApplyBits, ApplyArgs, Set, Without, Lower, CategoryIds, CategoryResets, Members, Emptied;
    Applied(t, cats, s, op, Rule(allow, "@" + cat), Bits(CategoryIds(t, cat), CategoryResets(t, cat), allow));
    BitsSet(s, CategoryIds(t, cat), CategoryResets(t, cat), allow, Members(t, cat), Emptied(t, cat));
  }

  lemma ParseCategory(t: Table, cats: set<string>, op: string, cat: string, allow: bool)
    requires cat in cats && cat != "all" && Lower(op) == Signed(allow, "@" + cat)
    ensures Parse(t, cats, op) == Change(Rule(allow, "@" + cat))
  {
    hide ParseAllow, ParseDeny;
    var low := Lower(op);
    SignedParts(allow, "@" + cat);
    assert low[1] == '@' && low[2..] == cat && "+@all"[2..] == "all" && "-@all"[2..] == "all";
    assert "allcommands"[0] == 'a' && "nocommands"[0] == 'n';
  }

  lemma CategoryIs(t: Table, cat: string)
    ensures forall id :: id in CategoryIds(t, cat) <==> id in Members(t, cat)
    ensures forall id :: id in CategoryResets(t, cat) <==> id in Emptied(t, cat)
  {
    forall id | id in Members(t, cat)
      ensures id in CategoryIds(t, cat)
    {
      if c :| c in t && cat in c.cats && id in Family(c) {
        if id != c.id {
          var s :| s in c.subs && s.id == id;
        }
      }
    }
    forall id | id in CategoryIds(t, cat)
      ensures id in Members(t, cat)
    {
      if c :| c in t && cat in c.cats && id == c.id {
        assert id in Family(c);
      } else if c, s :| c in t && cat in c.cats && s in c.subs && s.id == id {
        assert id in Family(c);
      }
    }
  }

  /** allcommands, nocommands and their aliases. */
  lemma AllSet(t: Table, cats: set<string>, s: Selector, op: string, allow: bool)
    requires Lower(op) == (if allow then "allcommands" else "nocommands") || Lower(op) == Signed(allow, "@all")
    ensures var now := Apply(t, cats, s, op);
            && now.Some? && (forall id :: id in now.value.bits <==> allow && 0 <= id < 1024)
            && now.value.args == map[] && now.value.rules == []
  {
    assert "nocommands"[0] == 'n' && "allcommands"[0] == 'a';
  }

  /** Every operation that is accepted has one of these forms. */
  ghost predicate IsOperation(t: Table, cats: set<string>, low: string) {
    || low == "allcommands" || low == "nocommands"
    || exists allow :: IsSigned(t, cats, low, allow)
  }

  ghost predicate IsSigned(t: Table, cats: set<string>, low: string, allow: bool) {
    || low == Signed(allow, "@all")
    || (exists cat :: cat in cats && low == Signed(allow, "@" + cat))
    || (exists c :: c in t && low == Signed(allow, c.name))
    || (exists c, s :: c in t && s in c.subs && low == Signed(allow, FullName(c, s)))
    || (allow && exists c, arg :: c in t && IsFirstArg(c, arg, low))
  }

  ghost predicate IsFirstArg(c: Command, arg: string, low: string) {
    c.subs == [] && arg != "" && '|' !in arg && low == Signed(true, c.name + "|" + arg)
  }

  lemma AcceptedIs(t: Table, cats: set<string>, s: Selector, op: string)
    requires GoodTable(t) && Distinct(t)
    ensures Apply(t, cats, s, op).Some? <==> IsOperation(t, cats, Lower(op))
  {
    if IsOperation(t, cats, Lower(op)) {
      OperationAccepted(t, cats, s, op);
    }
    if Apply(t, cats, s, op).Some? {
      AcceptedOperation(t, cats, s, op);
    }
  }

  lemma OperationAccepted(t: Table, cats: set<string>, s: Selector, op: string)
    requires GoodTable(t) && Distinct(t) && IsOperation(t, cats, Lower(op))
    ensures Apply(t, cats, s, op).Some?
  {
    var low := Lower(op);
    if low == "allcommands" || low == "nocommands" {
      AllSet(t, cats, s, op, low == "allcommands");
    } else {
      hide Apply, Lower, GoodTable, Distinct, Set, Without, Members, Emptied;
      var allow :| IsSigned(t, cats, low, allow);
      if low == Signed(allow, "@all") {
        AllSet(t, cats, s, op, allow);
      } else if cat :| cat in cats && low == Signed(allow, "@" + cat) {
        assert cat == "all" ==> "@" + cat == "@all";
        CategorySet(t, cats, s, op, cat, allow);
      } else if c :| c in t && low == Signed(allow, c.name) {
        CommandSet(t, cats, s, op, c, allow);
      } else if c, sub :| c in t && sub in c.subs && low == Signed(allow, FullName(c, sub)) {
        SubcommandSet(t, cats, s, op, c, sub, allow);
      } else {
        var c, arg :| c in t && IsFirstArg(c, arg, low);
        FirstArgumentSet(t, cats, s, op, c, arg);
      }
    }
  }

  lemma AcceptedOperation(t: Table, cats: set<string>, s: Selector, op: string)
    requires GoodTable(t) && Apply(t, cats, s, op).Some?
    ensures IsOperation(t, cats, Lower(op))
  {
    hide Lookup, EffectOf, ParseAllow, ParseDeny, IsSigned;
    var low := Lower(op);
    assert !Parse(t, cats, op).Refused?;
    if low == "allcommands" || low == "nocommands" {
    } else if low == "+@all" || low == "-@all" {
      assert low == Signed(low == "+@all", "@all");
      assert IsSigned(t, cats, low, low == "+@all") by { SignedAll(t, cats, low, low == "+@all"); }
    } else {
      var allow, text := low[0] == '+', low[1..];
      assert low == Signed(allow, text);
      if |low| >= 2 && low[1] == '@' {
        assert text == "@" + low[2..];
        SignedCategory(t, cats, low, allow, low[2..]);
      } else if allow {
        AllowedText(t, cats, low, text);
      } else {
        DeniedText(t, cats, low, text);
      }
      assert IsSigned(t, cats, low, allow);
    }
  }

  lemma SignedAll(t: Table, cats: set<string>, low: string, allow: bool)
    requires low == Signed(allow, "@all")
    ensures IsSigned(t, cats, low, allow)
  {}

  lemma SignedCategory(t: Table, cats: set<string>, low: string, allow: bool, cat: string)
    requires cat in cats && low == Signed(allow, "@" + cat)
    ensures IsSigned(t, cats, low, allow)
  {}

  lemma DeniedText(t: Table, cats: set<string>, low: string, text: string)
    requires low == Signed(false, text) && !ParseDeny(t, text).Refused?
    ensures IsSigned(t, cats, low, false)
  {
    var f := Lookup(t, text);
    hide Lookup;
    if f.Top? {
      assert f.cmd in t && low == Signed(false, f.cmd.name);
    } else {
      assert f.parent in t && f.sub in f.parent.subs && low == Signed(false, FullName(f.parent, f.sub));
    }
  }

  lemma AllowedText(t: Table, cats: set<string>, low: string, text: string)
    requires GoodTable(t) && low == Signed(true, text) && !ParseAllow(t, text).Refused?
    ensures IsSigned(t, cats, low, true)
  {
    var bar := LastBar(text);
    if bar == |text| {
      var f := Lookup(t, text);
      assert f.cmd in t && low == Signed(true, f.cmd.name);
    } else {
      LookupBar(t, text);
      hide Lookup;
      var c, arg := Lookup(t, text[..bar]).cmd, text[bar + 1..];
      assert text == c.name + "|" + arg;
      if c.subs == [] {
        assert c in t && IsFirstArg(c, arg, low);
      } else {
        var f := Lookup(t, text);
        assert f.parent in t && f.sub in f.parent.subs && low == Signed(true, FullName(f.parent, f.sub));
      }
    }
  }

  // ------------------------------------------------------------------------ the rules

  /** The rules about other names: neither this one nor this one with a bar and more behind it. */
  function Others(rules: seq<Rule>, name: string): seq<Rule> {
    if rules == [] then []
    else
      var last := rules[|rules| - 1];
      Others(rules[..|rules| - 1], name) + if last.name == name || name + "|" <= last.name then [] else [last]
  }

  lemma CoveredIs(had: string, name: string)
    ensures Covered(had, name) <==> had == name || name + "|" <= had
  {
    if Covered(had, name) && had != name {
      assert name + "|" == had[..|name| + 1];
    }
    if name + "|" <= had {
      assert (name + "|")[|name|] == '|' && had[..|name|] == (name + "|")[..|name|];
    }
  }

  lemma {:induction false} DroppedIs(rules: seq<Rule>, name: string)
    ensures Dropped(rules, name) == Others(rules, name)
  {
    hide Covered;
    if rules != [] {
      DroppedIs(rules[..|rules| - 1], name);
      CoveredIs(rules[|rules| - 1].name, name);
    }
  }

  /** Every accepted operation but those about all commands is stored once, last, as it was given, in lower case; rules about other names stay, in order. */
  lemma RulesSet(t: Table, cats: set<string>, s: Selector, op: string, r: Rule)
    requires Apply(t, cats, s, op).Some? && Lower(op) == Token(r)
    requires Lower(op) != "+@all" && Lower(op) != "-@all"
    ensures Apply(t, cats, s, op).value.rules == Others(s.rules, r.name) + [r]
  {
    hide EffectOf, ApplyBits, ApplyArgs, Dropped, Others;
    var low := Lower(op);
    assert low[0] == (if r.allow then '+' else '-') && low[1..] == r.name;
    assert "allcommands"[0] == 'a' && "nocommands"[0] == 'n';
    assert Parse(t, cats, op) == Change(r);
    DroppedIs(s.rules, r.name);
  }

  // ------------------------------------------------------------ the bitmap, bit by bit

  ghost predicate Written(was: seq<bool>, now: seq<bool>, chosen: iset<int>, value: bool) {
    |was| == |now| == 1024 && forall id :: 0 <= id < 1024 ==> now[id] == if id in chosen then value else was[id]
  }

  /** The bitmap before and after an operation with the given sign. */
  ghost predicate Obeyed(t: Table, cats: set<string>, low: string, allow: bool, was: seq<bool>, now: seq<bool>) {
    && (low == Signed(allow, "@all") ==> forall id :: 0 <= id < |now| ==> now[id] == allow)
    && (forall cat :: cat in cats && cat != "all" && low == Signed(allow, "@" + cat) ==> Written(was, now, Members(t, cat), allow))
    && (forall c :: c in t && low == Signed(allow, c.name) ==> Written(was, now, Family(c), allow))
    && (forall c, s :: c in t && s in c.subs && low == Signed(allow, FullName(c, s)) ==> Written(was, now, iset{s.id}, allow))
    && (forall c, arg :: c in t && allow && IsFirstArg(c, arg, low) ==> now == was)
  }

  ghost function OnesOf(bits: seq<bool>): set<int> {
    set i | 0 <= i < |bits| && bits[i]
  }

  lemma SetWritten(was: seq<bool>, now: seq<bool>, chosen: iset<int>, value: bool)
    requires |was| == |now| == 1024 && Set(OnesOf(was), OnesOf(now), chosen, value)
    ensures Written(was, now, chosen, value)
  {
    forall id | 0 <= id < 1024
      ensures now[id] == if id in chosen then value else was[id]
    {
      assert (id in OnesOf(now) <==> now[id]) && (id in OnesOf(was) <==> was[id]);
    }
  }

  lemma SameOnes(was: seq<bool>, now: seq<bool>)
    requires |was| == |now| && OnesOf(was) == OnesOf(now)
    ensures was == now
  {
    forall id | 0 <= id < |was|
      ensures was[id] == now[id]
    {
      assert (id in OnesOf(now) <==> now[id]) && (id in OnesOf(was) <==> was[id]);
    }
  }

  lemma Obeys(t: Table, cats: set<string>, s: Selector, op: string, allow: bool, was: seq<bool>, now: seq<bool>)
    requires GoodTable(t) && Distinct(t) && |was| == |now| == 1024 && s.bits == OnesOf(was)
    requires Apply(t, cats, s, op).Some? && Apply(t, cats, s, op).value.bits == OnesOf(now)
    ensures Obeyed(t, cats, Lower(op), allow, was, now)
  {
    hide Apply, Lower, GoodTable, Distinct, Set, Without, Members, Emptied, Family, Written, IsFirstArg;
    var low := Lower(op);
    if low == Signed(allow, "@all") {
      AllSet(t, cats, s, op, allow);
      forall id | 0 <= id < |now|
        ensures now[id] == allow
      {
        assert id in OnesOf(now) <==> now[id];
      }
    }
    forall cat | cat in cats && cat != "all" && low == Signed(allow, "@" + cat)
      ensures Written(was, now, Members(t, cat), allow)
    {
      CategorySet(t, cats, s, op, cat, allow);
      SetWritten(was, now, Members(t, cat), allow);
    }
    forall c | c in t && low == Signed(allow, c.name)
      ensures Written(was, now, Family(c), allow)
    {
      CommandSet(t, cats, s, op, c, allow);
      SetWritten(was, now, Family(c), allow);
    }
    forall c, sub | c in t && sub in c.subs && low == Signed(allow, FullName(c, sub))
      ensures Written(was, now, iset{sub.id}, allow)
    {
      SubcommandSet(t, cats, s, op, c, sub, allow);
      SetWritten(was, now, iset{sub.id}, allow);
    }
    forall c, arg | c in t && allow && IsFirstArg(c, arg, low)
      ensures now == was
    {
      ArgumentKeeps(t, cats, s, op, c, arg);
      SameOnes(was, now);
    }
  }

  lemma ArgumentKeeps(t: Table, cats: set<string>, s: Selector, op: string, c: Command, arg: string)
    requires GoodTable(t) && Distinct(t) && c in t && IsFirstArg(c, arg, Lower(op))
    ensures Apply(t, cats, s, op).Some? && Apply(t, cats, s, op).value.bits == s.bits
  {
    FirstArgumentSet(t, cats, s, op, c, arg);
  }
}
