/**
  The aclSelector object of src/acl.c: the bitmap, the ALLCOMMANDS flag, the lists
  of first arguments and the command_rules string, changed in place by ACLSetSelector.
*/
module AclSelector {
  import opened Wrappers
  import opened Sds
  import opened AclRules
  import opened Acl
  import AclEffects

  /** The arguments of a list, as strcasecmp tells them apart. */
  function LowerSet(list: seq<string>): set<string> {
    set i | 0 <= i < |list| :: Lower(list[i])
  }

  /** The subcommands that ACLSetSelectorCommandBitsForCategory finds in the category. */
  function SubsIn(subs: seq<Subcommand>, cat: string): set<int> {
    set s | s in subs && cat in s.cats :: s.id
  }

  function OwnIds(c: Command, cat: string): set<int> {
    (if cat in c.cats then {c.id} + SubIds(c.subs) else {}) + SubsIn(c.subs, cat)
  }

  function OwnResets(c: Command, cat: string): set<int> {
    (if cat in c.cats then {c.id} else {}) + SubsIn(c.subs, cat)
  }

  /** What the iteration over one command adds to the category. */
  lemma CategoryIdsSnoc(t: Table, cat: string, c: Command)
    ensures CategoryIds(t + [c], cat) == CategoryIds(t, cat) + OwnIds(c, cat)
  {
    assert forall d :: d in t + [c] <==> d in t || d == c;
  }

  lemma CategoryResetsSnoc(t: Table, cat: string, c: Command)
    ensures CategoryResets(t + [c], cat) == CategoryResets(t, cat) + OwnResets(c, cat)
  {
    assert forall d :: d in t + [c] <==> d in t || d == c;
  }

  /** Two rounds of the same change make one. */
  lemma BitsTwice(bits: set<int>, a: Effect, b: Effect)
    requires a.Bits? && b.Bits? && a.value == b.value
    ensures ApplyBits(ApplyBits(bits, a), b) == ApplyBits(bits, Bits(a.ids + b.ids, a.resets + b.resets, a.value))
  {}

  /** The bits and the arguments after an effect. */
  ghost predicate Changed(bits: set<int>, args: map<int, set<string>>, e: Effect, bits': set<int>, args': map<int, set<string>>) {
    bits' == ApplyBits(bits, e) && args' == ApplyArgs(args, e)
  }

  ghost function CategoryEffect(t: Table, cat: string, value: bool): Effect {
    Bits(CategoryIds(t, cat), CategoryResets(t, cat), value)
  }

  lemma CategoryNext(t: Table, cat: string, value: bool, i: nat, b0: set<int>, a0: map<int, set<string>>,
                     b1: set<int>, a1: map<int, set<string>>, b2: set<int>, a2: map<int, set<string>>)
    requires i < |t|
    requires Changed(b0, a0, CategoryEffect(t[..i], cat, value), b1, a1)
    requires Changed(b1, a1, Bits(OwnIds(t[i], cat), OwnResets(t[i], cat), value), b2, a2)
    ensures Changed(b0, a0, CategoryEffect(t[..i + 1], cat, value), b2, a2)
  {
    hide CategoryIds, CategoryResets, OwnIds, OwnResets;
    assert t[..i + 1] == t[..i] + [t[i]];
    CategoryIdsSnoc(t[..i], cat, t[i]);
    CategoryResetsSnoc(t[..i], cat, t[i]);
    BitsTwice(b0, CategoryEffect(t[..i], cat, value), Bits(OwnIds(t[i], cat), OwnResets(t[i], cat), value));
  }

  /** commandId and nextid: one ID for each command name, for ever. */
  class CommandIds {
    var ids: map<string, nat>
    var nextid: nat

    /** Names are kept in lower case; no ID is given twice, and the reserved bit never. */
    ghost predicate Valid()
      reads this
    {
      && nextid != RESERVED_BIT
      && (forall n :: n in ids ==> IsLower(n) && ids[n] < nextid && ids[n] != RESERVED_BIT)
      && (forall n, m :: n in ids && m in ids && ids[n] == ids[m] ==> n == m)
    }

    constructor ()
      ensures Valid() && ids == map[]
    {
      ids := map[];
      nextid := 0;
    }

    /** ACLGetCommandID */
    method GetCommandID(name: string) returns (id: nat)
      requires Valid()
      modifies this
      ensures Valid() && id != RESERVED_BIT
      ensures ids == old(ids)[Lower(name) := id]
      ensures Lower(name) in old(ids) ==> id == old(ids)[Lower(name)]
    {
      var low := Lower(name);
      if low in ids {
        return ids[low];
      }
      LowerIdempotent(name);
      ids := ids[low := nextid];
      id := nextid;
      nextid := nextid + 1;
      if nextid == USER_COMMAND_BITS_COUNT - 1 {
        nextid := nextid + 1;
      }
    }
  }

  class SelectorObject {
    const allowed: array<bool>
    var allCommands: bool
    var firstArgs: map<int, seq<string>>
    var text: string
    ghost var rules: seq<Rule>

    ghost predicate Valid()
      reads this, allowed
    {
      && allowed.Length == USER_COMMAND_BITS_COUNT
      && AllRules(Tokens(rules)) && text == Join(Tokens(rules))
      && (allCommands ==> forall i :: 0 <= i < allowed.Length ==> allowed[i])
    }

    ghost function BitSet(): set<int>
      reads allowed
    {
      set i | 0 <= i < allowed.Length && allowed[i]
    }

    ghost function ArgSets(): map<int, set<string>>
      reads this
    {
      map id | id in firstArgs :: LowerSet(firstArgs[id])
    }

    ghost function View(): Selector
      reads this, allowed
    {
      Selector(BitSet(), ArgSets(), rules)
    }

    /** ACLCreateSelector */
    constructor ()
      ensures Valid() && fresh(allowed) && View() == EMPTY
    {
      allowed := new bool[USER_COMMAND_BITS_COUNT](_ => false);
      allCommands := false;
      firstArgs := map[];
      text := "";
      rules := [];
      new;
      assert Tokens([]) == [];
    }

    /** ACLGetSelectorCommandBit */
    method GetCommandBit(id: nat) returns (on: bool)
      requires Valid()
      ensures on <==> id in View().bits
      ensures on <==> id < 1024 && allowed[id]
    {
      on := id < USER_COMMAND_BITS_COUNT && allowed[id];
    }

    /** ACLSetSelectorCommandBit */
    method SetCommandBit(id: nat, value: bool)
      requires Valid()
      modifies allowed, `allCommands
      ensures Valid()
      ensures BitSet() == ApplyBits(old(BitSet()), Bits({id}, {}, value))
      ensures forall i :: 0 <= i < allowed.Length ==> allowed[i] == if i == id then value else old(allowed[i])
      ensures allCommands <==> old(allCommands) && (value || id >= USER_COMMAND_BITS_COUNT)
    {
      if id >= USER_COMMAND_BITS_COUNT {
        assert id !in BitSet();
        return;
      }
      allowed[id] := value;
      if !value {
        allCommands := false;
      }
    }

    /** ACLResetFirstArgsForCommand */
    method ResetFirstArgsForCommand(id: nat)
      requires Valid()
      modifies `firstArgs
      ensures Valid() && ArgSets() == old(ArgSets()) - {id}
    {
      firstArgs := firstArgs - {id};
    }

    /** ACLAddAllowedFirstArg */
    method AddAllowedFirstArg(id: nat, sub: string)
      requires Valid()
      modifies `firstArgs
      ensures Valid() && ArgSets() == ApplyArgs(old(ArgSets()), AddArg(id, Lower(sub)))
    {
      var list := if id in firstArgs then firstArgs[id] else [];
      assert LowerSet(list) == ArgsAt(ArgSets(), id);
      var items := 0;
      while items < |list|
        invariant 0 <= items <= |list|
        invariant forall i :: 0 <= i < items ==> Lower(list[i]) != Lower(sub)
      {
        if Lower(list[items]) == Lower(sub) {
          assert LowerSet(list) == LowerSet(list) + {Lower(sub)};
          return;
        }
        items := items + 1;
      }
      firstArgs := firstArgs[id := list + [sub]];
      LowerSetSnoc(list, sub);
    }

    /** ACLChangeSelectorPerm */
    method ChangePerm(id: nat, subs: seq<Subcommand>, allow: bool)
      requires Valid()
      modifies allowed, `allCommands, `firstArgs
      ensures Valid()
      ensures BitSet() == ApplyBits(old(BitSet()), Bits({id} + SubIds(subs), {id}, allow))
      ensures ArgSets() == old(ArgSets()) - {id}
    {
      SetCommandBit(id, allow);
      ResetFirstArgsForCommand(id);
      assert SubIds(subs[..0]) == {};
      for i := 0 to |subs|
        invariant Valid() && ArgSets() == old(ArgSets()) - {id}
        invariant BitSet() == ApplyBits(old(BitSet()), Bits({id} + SubIds(subs[..i]), {id}, allow))
      {
        BitsTwice(old(BitSet()), Bits({id} + SubIds(subs[..i]), {id}, allow), Bits({subs[i].id}, {}, allow));
        SetCommandBit(subs[i].id, allow);
        assert subs[..i + 1] == subs[..i] + [subs[i]];
        assert SubIds(subs[..i + 1]) == SubIds(subs[..i]) + {subs[i].id};
        assert {id} + SubIds(subs[..i]) + {subs[i].id} == {id} + SubIds(subs[..i + 1]);
      }
      assert subs[..|subs|] == subs;
    }

    /** The recursive call of ACLSetSelectorCommandBitsForCategory, on the subcommands of one command. */
    method SetSubsForCategory(subs: seq<Subcommand>, cat: string, value: bool)
      requires Valid()
      modifies allowed, `allCommands, `firstArgs
      ensures Valid()
      ensures BitSet() == ApplyBits(old(BitSet()), Bits(SubsIn(subs, cat), SubsIn(subs, cat), value))
      ensures ArgSets() == old(ArgSets()) - SubsIn(subs, cat)
    {
      assert SubsIn(subs[..0], cat) == {};
      for i := 0 to |subs|
        invariant Valid() && ArgSets() == old(ArgSets()) - SubsIn(subs[..i], cat)
        invariant BitSet() == ApplyBits(old(BitSet()), Bits(SubsIn(subs[..i], cat), SubsIn(subs[..i], cat), value))
      {
        var s := subs[i];
        ghost var done := SubsIn(subs[..i], cat);
        assert subs[..i + 1] == subs[..i] + [s];
        assert SubsIn(subs[..i + 1], cat) == done + if cat in s.cats then {s.id} else {};
        if cat in s.cats {
          BitsTwice(old(BitSet()), Bits(done, done, value), Bits({s.id} + SubIds([]), {s.id}, value));
          ChangePerm(s.id, [], value);
          assert {s.id} + SubIds([]) == {s.id};
        }
      }
      assert subs[..|subs|] == subs;
    }

    /** One turn of the loop of ACLSetSelectorCommandBitsForCategory. */
    method SetCommandForCategory(c: Command, cat: string, value: bool)
      requires Valid()
      modifies allowed, `allCommands, `firstArgs
      ensures Valid()
      ensures Changed(old(BitSet()), old(ArgSets()), Bits(OwnIds(c, cat), OwnResets(c, cat), value), BitSet(), ArgSets())
    {
      ghost var own := if cat in c.cats then {c.id} + SubIds(c.subs) else {};
      ghost var ownResets := if cat in c.cats then {c.id} else {};
      if cat in c.cats {
        ChangePerm(c.id, c.subs, value);
      }
      assert BitSet() == ApplyBits(old(BitSet()), Bits(own, ownResets, value));
      BitsTwice(old(BitSet()), Bits(own, ownResets, value), Bits(SubsIn(c.subs, cat), SubsIn(c.subs, cat), value));
      SetSubsForCategory(c.subs, cat, value);
    }

    /** ACLSetSelectorCommandBitsForCategory */
    method SetBitsForCategory(t: Table, cat: string, value: bool)
      requires Valid()
      modifies allowed, `allCommands, `firstArgs
      ensures Valid()
      ensures Changed(old(BitSet()), old(ArgSets()), CategoryEffect(t, cat, value), BitSet(), ArgSets())
    {
      for i := 0 to |t|
        invariant Valid()
        invariant Changed(old(BitSet()), old(ArgSets()), CategoryEffect(t[..i], cat, value), BitSet(), ArgSets())
      {
        hide Changed, CategoryEffect;
        ghost var bits, args := BitSet(), ArgSets();
        SetCommandForCategory(t[i], cat, value);
        CategoryNext(t, cat, value, i, old(BitSet()), old(ArgSets()), bits, args, BitSet(), ArgSets());
      }
      assert t[..|t|] == t;
    }

    /** The text of the rules that a new rule leaves in place. */
    method RulesWithout(newRule: string) returns (left: string)
      requires Valid()
      ensures AllRules(Tokens(Dropped(rules, newRule))) && left == Join(Tokens(Dropped(rules, newRule)))
    {
      hide Dropped, Without, Join, AllRules, Tokens;
      var was := text;
      var buf := new char[|was|](i requires 0 <= i < |was| => was[i]);
      assert buf[..|was|] == was;
      var len := RemoveCommandRule(buf, |was|, newRule, Tokens(rules));
      DroppedTokens(rules, newRule);
      WithoutClean(Tokens(rules), newRule);
      left := buf[..len];
    }

    /** ACLUpdateCommandRules */
    method UpdateCommandRules(rule: string, allow: bool)
      requires Valid() && Spaceless(rule)
      modifies `text, `rules
      ensures Valid() && rules == UpdateRules(old(rules), Rule(allow, Lower(rule)))
    {
      hide Dropped, Join;
      var newRule := Lower(rule);
      ghost var left := Dropped(rules, newRule);
      var kept := RulesWithout(newRule);
      var signed := (if allow then "+" else "-") + newRule;
      AppendRule(left, Rule(allow, newRule));
      text := (if kept != "" then kept + " " else kept) + signed;
      rules := left + [Rule(allow, newRule)];
    }

    /** The +@all and -@all branches of ACLSetSelector. */
    method SetAllCommands(value: bool)
      requires Valid()
      modifies this, allowed
      ensures Valid() && View() == Selector(if value then AllBits() else {}, map[], []) && allCommands == value
    {
      for i := 0 to allowed.Length
        invariant forall j :: 0 <= j < i ==> allowed[j] == value
      {
        allowed[i] := value;
      }
      allCommands := value;
      text := "";
      firstArgs := map[];
      rules := [];
      assert Tokens([]) == [];
    }

    /** Both halves of a change: permissions first, then the rules. */
    ghost predicate Did(was: Selector, e: Effect, r: Rule)
      reads this, allowed
    {
      View() == Selector(ApplyBits(was.bits, e), ApplyArgs(was.args, e), UpdateRules(was.rules, r))
    }

    /** ACLSetSelectorCategory */
    method SetCategory(t: Table, cats: set<string>, category: string, allow: bool) returns (ok: bool)
      requires Valid() && IsLower(category) && category != "" && (Spaceless(category) || category[1..] !in cats)
      modifies this, allowed
      ensures Valid() && (ok <==> category[1..] in cats)
      ensures ok ==> Did(old(View()), CategoryEffect(t, category[1..], allow), Rule(allow, category))
      ensures !ok ==> View() == old(View())
    {
      if category[1..] !in cats {
        return false;
      }
      ok := true;
      UpdateCommandRules(category, allow);
      SetBitsForCategory(t, category[1..], allow);
    }

    /** The '-' branch of ACLSetSelector. */
    method Deny(t: Table, text: string) returns (ok: bool)
      requires Valid() && IsLower(text) && (Spaceless(text) || ParseDeny(t, text).Refused?)
      modifies this, allowed
      ensures Valid() && (ok <==> ParseDeny(t, text).Change?)
      ensures ok ==> Did(old(View()), PermEffect(Lookup(t, text), false), Rule(false, text))
      ensures !ok ==> View() == old(View())
    {
      ok := true;
      match Lookup(t, text) {
        case NotFound =>
          ok := false;
        case Top(c) =>
          ChangePerm(c.id, c.subs, false);
          UpdateCommandRules(c.name, false);
        case Sub(c, s) =>
          ChangePerm(s.id, [], false);
          UpdateCommandRules(FullName(c, s), false);
      }
    }

    method AllowCommand(t: Table, text: string) returns (ok: bool)
      requires Valid() && IsLower(text) && LastBar(text) == |text| && (Spaceless(text) || !Lookup(t, text).Top?)
      modifies this, allowed
      ensures Valid() && (ok <==> Lookup(t, text).Top?)
      ensures ok ==> Did(old(View()), PermEffect(Lookup(t, text), true), Rule(true, text))
      ensures !ok ==> View() == old(View())
    {
      var found := Lookup(t, text);
      ok := found.Top?;
      if ok {
        ChangePerm(found.cmd.id, found.cmd.subs, true);
        UpdateCommandRules(found.cmd.name, true);
      }
    }

    /** A bar after a command with subcommands, or before an argument. */
    method AllowPart(t: Table, text: string, cmd: Command, sub: string) returns (ok: bool)
      requires Valid() && IsLower(text) && Lower(sub) == sub && (Spaceless(text) || (cmd.subs != [] && Lookup(t, text).NotFound?))
      requires !Lookup(t, text).Top?
      modifies this, allowed
      ensures Valid() && (ok <==> cmd.subs == [] || Lookup(t, text).Sub?)
      ensures ok ==> Did(old(View()), if cmd.subs == [] then AddArg(cmd.id, sub) else PermEffect(Lookup(t, text), true), Rule(true, text))
      ensures !ok ==> View() == old(View())
    {
      hide Lookup;
      if cmd.subs != [] {
        var found := Lookup(t, text);
        if found.NotFound? {
          return false;
        }
        ChangePerm(found.sub.id, [], true);
      } else {
        AddAllowedFirstArg(cmd.id, sub);
      }
      UpdateCommandRules(text, true);
      ok := true;
    }

    /** The '+' branch of ACLSetSelector. */
    method Allow(t: Table, text: string) returns (ok: bool)
      requires Valid() && IsLower(text) && GoodTable(t) && (Spaceless(text) || ParseAllow(t, text).Refused?)
      modifies this, allowed
      ensures Valid() && (ok <==> ParseAllow(t, text).Change?)
      ensures ok ==> Did(old(View()), AllowEffect(t, text), Rule(true, text))
      ensures !ok ==> View() == old(View())
    {
      hide Lookup, Did;
      var bar := LastBar(text);
      if bar == |text| {
        ok := AllowCommand(t, text);
        return;
      }
      LookupBar(t, text);
      var found := Lookup(t, text[..bar]);
      if !found.Top? || bar == |text| - 1 {
        return false;
      }
      LowerParts(text, bar + 1, |text|);
      assert ParseAllow(t, text).Refused? <==> found.cmd.subs != [] && Lookup(t, text).NotFound?;
      ok := AllowPart(t, text, found.cmd, text[bar + 1..]);
    }

    /** The branches of ACLSetSelector for a sign followed by a category or a command. */
    method SetRule(t: Table, cats: set<string>, low: string) returns (ok: bool)
      requires Valid() && IsLower(low) && GoodTable(t) && low != "" && (low[0] == '+' || low[0] == '-')
      requires Spaceless(low) || ParseLower(t, cats, low).Refused?
      requires low != "+@all" && low != "-@all"
      modifies this, allowed
      ensures Valid() && (ok <==> ParseLower(t, cats, low).Change?)
      ensures ok ==> var r := ParseLower(t, cats, low).rule;
                     EffectOf(t, cats, r).Some? && Did(old(View()), EffectOf(t, cats, r).value, r)
      ensures !ok ==> View() == old(View())
    {
      hide EffectOf, Did, ParseDeny, ParseAllow;
      ParsedEffect(t, cats, low);
      if Spaceless(low) {
        SpacelessParts(low, 1, |low|);
      }
      LowerParts(low, 1, |low|);
      if |low| >= 2 && low[1] == '@' {
        ok := SetCategory(t, cats, low[1..], low[0] == '+');
        assert low[1..][1..] == low[2..];
      } else if low[0] == '-' {
        ok := Deny(t, low[1..]);
      } else {
        ok := Allow(t, low[1..]);
      }
    }

    /**
      ACLSetSelector on an operation about commands: which ones are accepted, and what
      they do to the bitmap, is also told by the command table alone.
    */
    method SetSelector(t: Table, cats: set<string>, op: string) returns (ok: bool)
      requires Valid() && GoodTable(t) && Settable(t, cats, op)
      modifies this, allowed
      ensures Valid()
      ensures match Apply(t, cats, old(View()), op)
              case None => !ok && View() == old(View())
              case Some(s) => ok && View() == s
      ensures AclEffects.Distinct(t) ==> (ok <==> AclEffects.IsOperation(t, cats, Lower(op)))
      ensures AclEffects.Distinct(t) && ok ==>
                && AclEffects.Obeyed(t, cats, Lower(op), true, old(allowed[..]), allowed[..])
                && AclEffects.Obeyed(t, cats, Lower(op), false, old(allowed[..]), allowed[..])
      ensures !ok ==> allowed[..] == old(allowed[..])
    {
      hide Apply, GoodTable, Settable, Lower;
      ghost var was := View();
      ghost var bits := allowed[..];
      assert was.bits == AclEffects.OnesOf(bits);
      ok := Operate(t, cats, op);
      assert View().bits == AclEffects.OnesOf(allowed[..]);
      if AclEffects.Distinct(t) {
        AclEffects.AcceptedIs(t, cats, was, op);
        if ok {
          AclEffects.Obeys(t, cats, was, op, true, bits, allowed[..]);
          AclEffects.Obeys(t, cats, was, op, false, bits, allowed[..]);
        }
      }
      if !ok {
        AclEffects.SameOnes(bits, allowed[..]);
      }
    }

    /** The branches of ACLSetSelector about commands. */
    method Operate(t: Table, cats: set<string>, op: string) returns (ok: bool)
      requires Valid() && GoodTable(t) && Settable(t, cats, op)
      modifies this, allowed
      ensures Valid()
      ensures match Apply(t, cats, old(View()), op)
              case None => !ok && View() == old(View())
              case Some(s) => ok && View() == s
    {
      hide EffectOf, Lookup;
      var low := Lower(op);
      if low == "allcommands" || low == "+@all" {
        SetAllCommands(true);
        return true;
      }
      if low == "nocommands" || low == "-@all" {
        SetAllCommands(false);
        return true;
      }
      if low == "" || (low[0] != '+' && low[0] != '-') {
        return false;
      }
      LowerIdempotent(op);
      if Spaceless(op) {
        SpacelessParts(op, 0, |op|);
      }
      ok := SetRule(t, cats, low);
    }

    /**
      ACLRecomputeCommandBitsFromCommandRulesAllUsers on this selector; false is a failed
      assertion, on rules that do not split or on one that is refused. Everything comes out
      as it was if and only if no rule holds a quote, a tab or a line end.
    */
    method RecomputeCommandBits(t: Table, cats: set<string>) returns (ok: bool)
      requires Valid() && GoodTable(t) && GoodCats(cats) && Consistent(t, cats, View())
      requires SplitArgs(text).Some? ==> AllSettable(t, cats, SplitArgs(text).value)
      modifies this, allowed
      ensures Valid()
      ensures match Recompute(t, cats, old(View()), old(text)) case None => !ok case Some(s) => ok && View() == s
      ensures ok && Same(Some(View()), old(View())) <==> AllClean(Tokens(old(rules)))
    {
      hide Apply, Consistent, GoodTable, GoodCats, Join, Tokens, SplitArgs, Clean, Same;
      ghost var was := View();
      RebuildsConsistent(t, cats, was);
      RefusedDiffers(was);
      var split := Sdssplitargs(text);
      if split.None? {
        return false;
      }
      var argv := split.value;
      var future := GetCommandBit(USER_COMMAND_BITS_COUNT - 1);
      var base := if future then "+@all" else "-@all";
      ok := SetSelector(t, cats, base);
      BaseAnywhere(t, cats, was.bits, was);
      assert ok;
      ghost var clean := View();
      for i := 0 to |argv|
        invariant Valid() && ok && AllSettable(t, cats, argv)
        invariant ApplyAll(t, cats, clean, argv[..i]) == Some(View())
      {
        assert argv[..i + 1][..i] == argv[..i];
        ok := SetSelector(t, cats, argv[i]);
        if !ok {
          RefusedStays(t, cats, clean, argv, i + 1);
          return;
        }
      }
      assert argv[..|argv|] == argv;
    }
  }

  lemma RefusedDiffers(s: Selector)
    ensures !Same(None, s)
  {}

  lemma {:induction false} RefusedStays(t: Table, cats: set<string>, s: Selector, ops: seq<string>, n: nat)
    requires n <= |ops| && ApplyAll(t, cats, s, ops[..n]) == None
    ensures ApplyAll(t, cats, s, ops) == None
    decreases |ops|
  {
    hide Apply;
    if n == |ops| {
      assert ops[..n] == ops;
    } else {
      var m := |ops| - 1;
      assert ops[..m][..n] == ops[..n];
      RefusedStays(t, cats, s, ops[..m], n);
    }
  }

  lemma LowerSetSnoc(list: seq<string>, x: string)
    ensures LowerSet(list + [x]) == LowerSet(list) + {Lower(x)}
  {
    var longer := list + [x];
    assert longer[|list|] == x;
    assert forall i :: 0 <= i < |list| ==> longer[i] == list[i];
  }

  lemma JoinEmpty(tokens: seq<string>)
    requires AllRules(tokens)
    ensures Join(tokens) == "" <==> tokens == []
  {
    if tokens != [] {
      assert |tokens[|tokens| - 1]| > 0;
    }
  }

  /** What ACLChangeSelectorPerm does with the command found. */
  ghost function PermEffect(f: Found, allow: bool): Effect {
    match f
    case Top(c) => Bits({c.id} + SubIds(c.subs), {c.id}, allow)
    case Sub(_, s) => Bits({s.id}, {s.id}, allow)
    case NotFound => Bits({}, {}, allow)
  }

  ghost function AllowEffect(t: Table, text: string): Effect {
    var bar := LastBar(text);
    if Lookup(t, text).NotFound? && bar < |text| - 1 && Lookup(t, text[..bar]).Top?
    then AddArg(Lookup(t, text[..bar]).cmd.id, text[bar + 1..])
    else PermEffect(Lookup(t, text), true)
  }

  /** The effects of the branches are the effect of the rule. */
  lemma ParsedEffect(t: Table, cats: set<string>, low: string)
    requires GoodTable(t) && low != "" && (low[0] == '+' || low[0] == '-')
    ensures ParseLower(t, cats, low).Change? ==>
              var r := ParseLower(t, cats, low).rule;
              && r == Rule(low[0] == '+', low[1..])
              && EffectOf(t, cats, r) == Some(
                   if |low| >= 2 && low[1] == '@' then CategoryEffect(t, low[2..], r.allow)
                   else if r.allow then AllowEffect(t, low[1..])
                   else PermEffect(Lookup(t, low[1..]), false))
  {
    hide ParseAllow, ParseDeny, EffectOf, AllowEffect, CategoryEffect;
    var text := low[1..];
    if !ParseLower(t, cats, low).Change? {
    } else if |low| >= 2 && low[1] == '@' {
      ParsedCategory(t, cats, low);
    } else if low[0] == '+' {
      ParsedAllow(t, cats, text);
    } else {
      ParsedDeny(t, cats, text);
    }
  }

  lemma ParsedCategory(t: Table, cats: set<string>, low: string)
    requires |low| >= 2 && low[1] == '@' && ParseLower(t, cats, low).Change?
    ensures EffectOf(t, cats, ParseLower(t, cats, low).rule) == Some(CategoryEffect(t, low[2..], low[0] == '+'))
  {
    assert low[1..][1..] == low[2..];
    assert low == [low[0]] + "@" + low[2..];
  }

  lemma ParsedAllow(t: Table, cats: set<string>, text: string)
    requires GoodTable(t) && (text == "" || text[0] != '@')
    ensures ParseAllow(t, text).Change? ==>
              ParseAllow(t, text) == Change(Rule(true, text)) && EffectOf(t, cats, Rule(true, text)) == Some(AllowEffect(t, text))
  {
    hide Lookup;
    if LastBar(text) < |text| {
      LookupBar(t, text);
    }
  }

  lemma ParsedDeny(t: Table, cats: set<string>, text: string)
    requires text == "" || text[0] != '@'
    ensures ParseDeny(t, text).Change? ==>
              ParseDeny(t, text) == Change(Rule(false, text))
              && EffectOf(t, cats, Rule(false, text)) == Some(PermEffect(Lookup(t, text), false))
  {}

  lemma AppendRule(left: seq<Rule>, r: Rule)
    requires AllRules(Tokens(left)) && Spaceless(r.name)
    ensures var kept := Join(Tokens(left));
            Join(Tokens(left + [r])) == (if kept != "" then kept + " " else kept) + Token(r)
    ensures AllRules(Tokens(left + [r]))
  {
    hide Join, Tokens, IsRule;
    TokensSnoc(left, r);
    JoinSnoc(Tokens(left), Token(r));
    JoinEmpty(Tokens(left));
    assert IsRule(Token(r)) by {
      TokenRule(r);
    }
  }

  lemma TokenRule(r: Rule)
    requires Spaceless(r.name)
    ensures IsRule(Token(r))
  {}
}
