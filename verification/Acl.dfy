/**
  ACL selectors (src/acl.c): the command bitmap, the first-argument lists and the
  ordered command rules, and why replaying the rules rebuilds the other two.
*/
module Acl {
  import opened Wrappers
  import opened Sds
  import opened AclRules

  // ------------------------------------------------------------- command table

  const USER_COMMAND_BITS_COUNT := 1024
  /** Set only by +@all: no command ever gets this ID. */
  const RESERVED_BIT := 1023

  datatype Subcommand = Subcommand(id: nat, name: string, cats: set<string>)

  /** One entry of server.orig_commands. */
  datatype Command = Command(id: nat, name: string, cats: set<string>, subs: seq<Subcommand>)

  type Table = seq<Command>

  predicate IsLower(s: string) {
    Lower(s) == s
  }

  lemma LowerIdempotent(s: string)
    ensures IsLower(Lower(s))
  {}

  predicate GoodName(name: string) {
    name != "" && IsLower(name) && Clean(name) && '|' !in name && '@' !in name
  }

  /** Names are lower case and bare; a first-argument list can only belong to a command without subcommands. */
  predicate GoodTable(t: Table) {
    && (forall c :: c in t ==> GoodName(c.name) && c.id != RESERVED_BIT)
    && (forall c, s :: c in t && s in c.subs ==> GoodName(s.name) && s.id != RESERVED_BIT)
    && (forall c, d, s :: c in t && d in t && s in d.subs && c.subs == [] ==> c.id != s.id)
  }

  function FullName(c: Command, s: Subcommand): string {
    c.name + "|" + s.name
  }

  function FindCommand(t: Table, name: string): (r: Option<Command>)
    ensures r.Some? ==> r.value in t && r.value.name == name
  {
    if t == [] then None
    else if t[0].name == name then Some(t[0])
    else FindCommand(t[1..], name)
  }

  function FindSub(subs: seq<Subcommand>, name: string): (r: Option<Subcommand>)
    ensures r.Some? ==> r.value in subs && r.value.name == name
  {
    if subs == [] then None
    else if subs[0].name == name then Some(subs[0])
    else FindSub(subs[1..], name)
  }

  datatype Found = NotFound | Top(cmd: Command) | Sub(parent: Command, sub: Subcommand)

  /** The last '|' of s, or its length. */
  function LastBar(s: string): (i: nat)
    ensures i <= |s| && (i < |s| ==> s[i] == '|') && (forall j :: i < j < |s| ==> s[j] != '|')
    ensures '|' !in s <==> i == |s|
  {
    if s == "" then 0
    else
      var n := |s| - 1;
      assert s == s[..n] + [s[n]];
      if s[n] == '|' then n
      else var i := LastBar(s[..n]); if i == n then |s| else i
  }

  /** ACLLookupCommand on a lower-case "name" or "name|sub". */
  function Lookup(t: Table, name: string): (f: Found)
    ensures f.Top? ==> f.cmd in t && name == f.cmd.name
    ensures f.Sub? ==> f.parent in t && f.sub in f.parent.subs && name == FullName(f.parent, f.sub)
  {
    var bar := LastBar(name);
    if bar == |name| then
      var c := FindCommand(t, name);
      if c.None? then NotFound else Top(c.value)
    else
      var c := FindCommand(t, name[..bar]);
      if c.None? then NotFound
      else
        var s := FindSub(c.value.subs, name[bar + 1..]);
        if s.None? then NotFound
        else
          assert name == name[..bar] + "|" + name[bar + 1..];
          Sub(c.value, s.value)
  }

  // -------------------------------------------------------------------- effects

  /** A rule as command_rules keeps it: a sign and a lower-case name. */
  datatype Rule = Rule(allow: bool, name: string)

  function Token(r: Rule): string {
    (if r.allow then "+" else "-") + r.name
  }

  function Tokens(rules: seq<Rule>): (ts: seq<string>)
    ensures |ts| == |rules| && forall i :: 0 <= i < |rules| ==> ts[i] == Token(rules[i])
  {
    seq(|rules|, i requires 0 <= i < |rules| => Token(rules[i]))
  }

  /** What one rule does: bits to set or clear and argument lists to drop, or one argument to add. */
  datatype Effect =
    | Bits(ids: set<int>, resets: set<int>, value: bool)
    | AddArg(id: int, arg: string)

  function SubIds(subs: seq<Subcommand>): set<int> {
    set s | s in subs :: s.id
  }

  /** Everything ACLSetSelectorCommandBitsForCategory touches. */
  function CategoryIds(t: Table, cat: string): set<int> {
    (set c | c in t && cat in c.cats :: c.id)
    + (set c, s | c in t && cat in c.cats && s in c.subs :: s.id)
    + (set c, s | c in t && s in c.subs && cat in s.cats :: s.id)
  }

  function CategoryResets(t: Table, cat: string): set<int> {
    (set c | c in t && cat in c.cats :: c.id)
    + (set c, s | c in t && s in c.subs && cat in s.cats :: s.id)
  }

  /** The effect of a rule, None if ACLSetSelector would refuse it. */
  function EffectOf(t: Table, cats: set<string>, r: Rule): Option<Effect> {
    if r.name != "" && r.name[0] == '@' then
      var cat := r.name[1..];
      if cat in cats && cat != "all" then Some(Bits(CategoryIds(t, cat), CategoryResets(t, cat), r.allow)) else None
    else
      match Lookup(t, r.name)
      case Top(c) => Some(Bits({c.id} + SubIds(c.subs), {c.id}, r.allow))
      case Sub(_, s) => Some(Bits({s.id}, {s.id}, r.allow))
      case NotFound =>
        var bar := LastBar(r.name);
        if !r.allow || bar >= |r.name| - 1 then None
        else
          match Lookup(t, r.name[..bar])
          case Top(c) => if c.subs == [] then Some(AddArg(c.id, r.name[bar + 1..])) else None
          case _ => None
  }

  /** A selector: the bitmap as the set of its one bits, the first arguments in lower case, the rules. */
  datatype Selector = Selector(bits: set<int>, args: map<int, set<string>>, rules: seq<Rule>)

  const EMPTY := Selector({}, map[], [])

  predicate IsBit(i: int) {
    0 <= i < USER_COMMAND_BITS_COUNT
  }

  function AllBits(): (b: set<int>)
    ensures forall i :: i in b <==> IsBit(i)
  {
    set i | 0 <= i < USER_COMMAND_BITS_COUNT && IsBit(i)
  }

  /** ACLSetSelectorCommandBit does nothing for an ID beyond the bitmap. */
  function ApplyBits(bits: set<int>, e: Effect): set<int> {
    match e
    case AddArg(_, _) => bits
    case Bits(ids, _, value) => if value then bits + (set i | i in ids && IsBit(i)) else bits - ids
  }

  function ArgsAt(args: map<int, set<string>>, id: int): set<string> {
    if id in args then args[id] else {}
  }

  function ApplyArgs(args: map<int, set<string>>, e: Effect): map<int, set<string>> {
    match e
    case Bits(_, resets, _) => args - resets
    case AddArg(id, arg) => args[id := ArgsAt(args, id) + {arg}]
  }

  /** ACLUpdateCommandRules on the parsed rules. */
  function UpdateRules(rules: seq<Rule>, r: Rule): seq<Rule> {
    Dropped(rules, r.name) + [r]
  }

  function Dropped(rules: seq<Rule>, name: string): seq<Rule> {
    if rules == [] then []
    else
      var before := Dropped(rules[..|rules| - 1], name);
      var last := rules[|rules| - 1];
      if Covered(last.name, name) then before else before + [last]
  }

  // ------------------------------------------------------------------ operations

  /** What ACLSetSelector makes of an operation on commands. */
  datatype Action = SetAll(value: bool) | Change(rule: Rule) | Refused

  /** Names are compared ignoring case and rules are stored in lower case. */
  function Parse(t: Table, cats: set<string>, op: string): Action {
    ParseLower(t, cats, Lower(op))
  }

  function ParseLower(t: Table, cats: set<string>, op: string): Action {
    if op == "allcommands" || op == "+@all" then SetAll(true)
    else if op == "nocommands" || op == "-@all" then SetAll(false)
    else if op == "" || (op[0] != '+' && op[0] != '-') then Refused
    else if |op| >= 2 && op[1] == '@' then
      (if op[2..] in cats then Change(Rule(op[0] == '+', op[1..])) else Refused)
    else if op[0] == '-' then ParseDeny(t, op[1..])
    else ParseAllow(t, op[1..])
  }

  /** The branch for '-' followed by a command. */
  function ParseDeny(t: Table, text: string): Action {
    match Lookup(t, text)
    case Top(c) => Change(Rule(false, c.name))
    case Sub(c, s) => Change(Rule(false, FullName(c, s)))
    case NotFound => Refused
  }

  /** The branch for '+' followed by a command. */
  function ParseAllow(t: Table, text: string): Action {
    var bar := LastBar(text);
    if bar == |text| then
      match Lookup(t, text)
      case Top(c) => Change(Rule(true, c.name))
      case _ => Refused
    else
      match Lookup(t, text[..bar])
      case NotFound => Refused
      case Sub(_, _) => Refused
      case Top(c) =>
        if bar == |text| - 1 then Refused
        else if c.subs != [] && Lookup(t, text).NotFound? then Refused
        else Change(Rule(true, text))
  }

  function Apply(t: Table, cats: set<string>, s: Selector, op: string): Option<Selector> {
    match Parse(t, cats, op)
    case Refused => None
    case SetAll(v) => Some(Selector(if v then AllBits() else {}, map[], []))
    case Change(r) =>
      match EffectOf(t, cats, r)
      case None => None
      case Some(e) => Some(Selector(ApplyBits(s.bits, e), ApplyArgs(s.args, e), UpdateRules(s.rules, r)))
  }

  /** An operation that is refused may have spaces. */
  predicate Settable(t: Table, cats: set<string>, op: string) {
    Spaceless(op) || Parse(t, cats, op).Refused?
  }

  predicate AllSettable(t: Table, cats: set<string>, ops: seq<string>) {
    forall i :: 0 <= i < |ops| ==> Settable(t, cats, ops[i])
  }

  /** Any sequence of operations; a refused one changes nothing. */
  function Run(t: Table, cats: set<string>, s: Selector, ops: seq<string>): Selector
    decreases ops
  {
    if ops == [] then s
    else
      var next := Apply(t, cats, s, ops[0]);
      Run(t, cats, if next.Some? then next.value else s, ops[1..])
  }

  // ----------------------------------------------------------- rules that parse

  predicate GoodCats(cats: set<string>) {
    forall c :: c in cats ==> IsLower(c) && Clean(c) && '|' !in c
  }

  /** A rule that command_rules can hold. */
  predicate Valid(t: Table, cats: set<string>, r: Rule) {
    IsLower(r.name) && Spaceless(r.name) && EffectOf(t, cats, r).Some?
  }

  predicate AllValid(t: Table, cats: set<string>, rules: seq<Rule>) {
    forall i :: 0 <= i < |rules| ==> Valid(t, cats, rules[i])
  }

  lemma SpacelessParts(s: string, i: nat, j: nat)
    requires Spaceless(s) && i <= j <= |s|
    ensures Spaceless(s[i..j]) && Spaceless(Lower(s))
  {}

  lemma LowerParts(s: string, i: nat, j: nat)
    requires IsLower(s) && i <= j <= |s|
    ensures IsLower(s[i..j])
  {
    assert Lower(s)[i..j] == s[i..j];
  }

  /** A bar at the end of the command name: the text splits there. */
  lemma LookupBar(t: Table, text: string)
    requires GoodTable(t) && LastBar(text) < |text|
    ensures var bar := LastBar(text);
            match Lookup(t, text[..bar])
            case NotFound => Lookup(t, text) == NotFound
            case Sub(_, _) => Lookup(t, text) == NotFound
            case Top(c) =>
              && FindCommand(t, text[..bar]) == Some(c)
              && (c.subs == [] ==> Lookup(t, text) == NotFound)
              && (Lookup(t, text).Sub? ==> Lookup(t, text).parent == c)
              && !Lookup(t, text).Top?
  {
    var bar := LastBar(text);
    var head := text[..bar];
    if LastBar(head) < |head| {
      assert '|' in head;
    }
  }

  lemma ParseAllowValid(t: Table, cats: set<string>, text: string)
    requires GoodTable(t) && Spaceless(text) && IsLower(text) && ParseAllow(t, text).Change?
    requires text == "" || text[0] != '@'
    ensures Valid(t, cats, ParseAllow(t, text).rule)
  {
    if LastBar(text) < |text| {
      LookupBar(t, text);
    }
  }

  lemma ParseCategoryValid(t: Table, cats: set<string>, low: string)
    requires Spaceless(low) && IsLower(low) && ParseLower(t, cats, low).Change? && |low| >= 2 && low[1] == '@'
    ensures Valid(t, cats, ParseLower(t, cats, low).rule)
  {
    SpacelessParts(low, 1, |low|);
    LowerParts(low, 1, |low|);
    assert low[1..][1..] == low[2..];
    assert low == [low[0]] + "@" + low[2..];
  }

  lemma ParseDenyValid(t: Table, cats: set<string>, text: string)
    requires Spaceless(text) && IsLower(text) && ParseDeny(t, text).Change?
    requires text == "" || text[0] != '@'
    ensures Valid(t, cats, ParseDeny(t, text).rule)
  {}

  lemma ParseValid(t: Table, cats: set<string>, op: string)
    requires GoodTable(t) && GoodCats(cats) && Spaceless(op) && Parse(t, cats, op).Change?
    ensures Valid(t, cats, Parse(t, cats, op).rule)
  {
    hide Valid, ParseAllow, ParseDeny, GoodTable, GoodCats;
    var low := Lower(op);
    SpacelessParts(op, 0, |op|);
    LowerIdempotent(op);
    if |low| >= 2 && low[1] == '@' {
      ParseCategoryValid(t, cats, low);
    } else {
      SpacelessParts(low, 1, |low|);
      LowerParts(low, 1, |low|);
      if low[0] == '-' {
        ParseDenyValid(t, cats, low[1..]);
      } else {
        ParseAllowValid(t, cats, low[1..]);
      }
    }
  }

  /** ACLSetSelector accepts every rule of command_rules, as that very rule. */
  lemma Reparse(t: Table, cats: set<string>, r: Rule)
    requires GoodTable(t) && GoodCats(cats) && Valid(t, cats, r)
    ensures Parse(t, cats, Token(r)) == Change(r)
  {
    hide EffectOf, ParseLower;
    var op := Token(r);
    LowerToken(r);
    if r.name != "" && r.name[0] == '@' {
      ReparseCategory(t, cats, r);
    } else {
      ReparseCommand(t, cats, r);
    }
  }

  lemma LowerToken(r: Rule)
    requires IsLower(r.name)
    ensures Lower(Token(r)) == Token(r)
  {
    assert Token(r)[1..] == r.name;
  }

  lemma ReparseCommand(t: Table, cats: set<string>, r: Rule)
    requires GoodTable(t) && Valid(t, cats, r) && !(r.name != "" && r.name[0] == '@')
    ensures ParseLower(t, cats, Token(r)) == Change(r)
  {
    hide EffectOf, ParseAllow, ParseDeny, GoodTable, Lookup;
    var text := Token(r);
    assert text[1..] == r.name && text[0] == (if r.allow then '+' else '-');
    assert |text| >= 2 ==> text[1] == r.name[0];
    if r.allow {
      ReparseAllow(t, cats, r);
    } else {
      ReparseDeny(t, cats, r);
    }
  }

  lemma ReparseCategory(t: Table, cats: set<string>, r: Rule)
    requires Valid(t, cats, r) && r.name != "" && r.name[0] == '@'
    ensures ParseLower(t, cats, Token(r)) == Change(r)
  {
    var op := Token(r);
    assert op[1..] == r.name;
    assert op[2..] == r.name[1..];
    assert op == [op[0]] + "@" + r.name[1..];
  }

  lemma ReparseDeny(t: Table, cats: set<string>, r: Rule)
    requires Valid(t, cats, r) && !r.allow && !(r.name != "" && r.name[0] == '@')
    ensures ParseDeny(t, r.name) == Change(r)
  {}

  lemma ReparseAllow(t: Table, cats: set<string>, r: Rule)
    requires GoodTable(t) && Valid(t, cats, r) && r.allow && !(r.name != "" && r.name[0] == '@')
    ensures ParseAllow(t, r.name) == Change(r)
  {
    var bar := LastBar(r.name);
    if bar < |r.name| {
      LookupBar(t, r.name);
      var f := Lookup(t, r.name);
      if f.Sub? {
        assert f.sub.name != "" && r.name[|r.name| - 1] == f.sub.name[|f.sub.name| - 1];
      }
    }
  }

  // ------------------------------------------------------- what a rule replaces

  /** Where first-argument lists can be. */
  function ArgIds(t: Table): set<int> {
    set c | c in t && c.subs == [] :: c.id
  }

  /** Whatever the old rule did, the new one does over. */
  predicate Overrides(t: Table, e: Effect, old_: Effect) {
    match e
    case AddArg(_, _) => old_ == e
    case Bits(ids, resets, _) =>
      match old_
      case AddArg(id, _) => id in resets
      case Bits(ids', resets', _) => ids' <= ids && resets' * ArgIds(t) <= resets
  }

  /** A rule is only dropped for one that overrides it. */
  lemma CoveredOverrides(t: Table, cats: set<string>, r: Rule, old_: Rule)
    requires GoodTable(t) && GoodCats(cats) && Valid(t, cats, r) && Valid(t, cats, old_)
    requires Covered(old_.name, r.name)
    ensures Overrides(t, EffectOf(t, cats, r).value, EffectOf(t, cats, old_).value)
  {
    if old_.name != r.name {
      CoveredByExtension(t, cats, r, old_);
    }
  }

  lemma CoveredByExtension(t: Table, cats: set<string>, r: Rule, old_: Rule)
    requires GoodTable(t) && GoodCats(cats) && Valid(t, cats, r) && Valid(t, cats, old_)
    requires Covered(old_.name, r.name) && old_.name != r.name
    ensures Overrides(t, EffectOf(t, cats, r).value, EffectOf(t, cats, old_).value)
  {
    var n := |r.name|;
    assert old_.name[n] == '|';
    assert old_.name[..n] == r.name;
    if old_.name[0] != '@' {
      OnlyOneBar(t, cats, old_, n);
      LookupBar(t, old_.name);
    }
  }

  /** The bar of a valid name is where its command ends. */
  lemma OnlyOneBar(t: Table, cats: set<string>, r: Rule, n: nat)
    requires GoodTable(t) && Valid(t, cats, r) && r.name[0] != '@' && n < |r.name| && r.name[n] == '|'
    ensures LastBar(r.name) == n && '|' !in r.name[..n] && Lookup(t, r.name[..n]).Top?
  {
    var bar := LastBar(r.name);
    assert n <= bar;
    LookupBar(t, r.name);
    var c := Lookup(t, r.name[..bar]).cmd;
    assert r.name[..bar] == c.name;
    assert '|' !in r.name[..bar];
  }

  // -------------------------------------------------------------------- replay

  function Effects(t: Table, cats: set<string>, rules: seq<Rule>): (es: seq<Effect>)
    requires AllValid(t, cats, rules)
    ensures |es| == |rules| && forall i :: 0 <= i < |rules| ==> Some(es[i]) == EffectOf(t, cats, rules[i])
  {
    seq(|rules|, i requires 0 <= i < |rules| => EffectOf(t, cats, rules[i]).value)
  }

  function ReplayBits(base: set<int>, es: seq<Effect>): set<int> {
    if es == [] then base else ApplyBits(ReplayBits(base, es[..|es| - 1]), es[|es| - 1])
  }

  function ReplayArgs(es: seq<Effect>): map<int, set<string>> {
    if es == [] then map[] else ApplyArgs(ReplayArgs(es[..|es| - 1]), es[|es| - 1])
  }

  lemma {:induction false} ReplayInBitmap(base: set<int>, es: seq<Effect>)
    requires base <= AllBits()
    ensures ReplayBits(base, es) <= AllBits()
  {
    if es != [] {
      ReplayInBitmap(base, es[..|es| - 1]);
    }
  }

  lemma TokensSnoc(rules: seq<Rule>, r: Rule)
    ensures Tokens(rules + [r]) == Tokens(rules) + [Token(r)]
  {}

  lemma EffectsSnoc(t: Table, cats: set<string>, rules: seq<Rule>, r: Rule)
    requires AllValid(t, cats, rules) && Valid(t, cats, r)
    ensures AllValid(t, cats, rules + [r])
    ensures Effects(t, cats, rules + [r]) == Effects(t, cats, rules) + [EffectOf(t, cats, r).value]
  {
    hide Valid, EffectOf;
  }

  lemma ReplaySnoc(base: set<int>, es: seq<Effect>, e: Effect)
    ensures ReplayBits(base, es + [e]) == ApplyBits(ReplayBits(base, es), e)
    ensures ReplayArgs(es + [e]) == ApplyArgs(ReplayArgs(es), e)
  {
    assert (es + [e])[..|es|] == es;
  }

  /** x and y differ at most in what e is about to overwrite. */
  ghost predicate AgreeBits(e: Effect, x: set<int>, y: set<int>) {
    forall b :: (e.AddArg? || b !in e.ids) ==> (b in x <==> b in y)
  }

  ghost predicate AgreeArgs(t: Table, e: Effect, x: map<int, set<string>>, y: map<int, set<string>>) {
    match e
    case Bits(_, resets, _) => forall id :: id in ArgIds(t) && id !in resets ==> ArgsAt(x, id) == ArgsAt(y, id)
    case AddArg(i, a) =>
      && ArgsAt(x, i) + {a} == ArgsAt(y, i) + {a}
      && forall id :: id != i ==> ArgsAt(x, id) == ArgsAt(y, id)
  }

  lemma ArgsAfter(x: map<int, set<string>>, f: Effect, id: int)
    ensures ArgsAt(ApplyArgs(x, f), id) ==
            match f
            case Bits(_, resets, _) => if id in resets then {} else ArgsAt(x, id)
            case AddArg(j, a) => if id == j then ArgsAt(x, id) + {a} else ArgsAt(x, id)
  {}

  lemma ArgsStep(t: Table, e: Effect, x: map<int, set<string>>, y: map<int, set<string>>, f: Effect)
    requires AgreeArgs(t, e, x, y)
    ensures AgreeArgs(t, e, ApplyArgs(x, f), ApplyArgs(y, f))
    ensures Overrides(t, e, f) ==> AgreeArgs(t, e, ApplyArgs(x, f), y)
  {
    forall id
      ensures ArgsAt(x, id) == ArgsAt(y, id) ==> ArgsAt(ApplyArgs(x, f), id) == ArgsAt(ApplyArgs(y, f), id)
    {
      ArgsAfter(x, f, id);
      ArgsAfter(y, f, id);
    }
    if e.AddArg? {
      ArgsAfter(x, f, e.id);
      ArgsAfter(y, f, e.id);
    }
  }

  ghost predicate AgreeAfter(t: Table, e: Effect, base: set<int>, es: seq<Effect>, left: seq<Effect>) {
    AgreeBits(e, ReplayBits(base, es), ReplayBits(base, left)) && AgreeArgs(t, e, ReplayArgs(es), ReplayArgs(left))
  }

  /** An overridden effect may be left out, any other happens on both sides. */
  lemma AgreeSnoc(t: Table, e: Effect, base: set<int>, es: seq<Effect>, left: seq<Effect>, f: Effect)
    requires AgreeAfter(t, e, base, es, left)
    ensures AgreeAfter(t, e, base, es + [f], left + [f])
    ensures Overrides(t, e, f) ==> AgreeAfter(t, e, base, es + [f], left)
  {
    hide ReplayBits, ReplayArgs, AgreeArgs, ApplyArgs;
    ReplaySnoc(base, es, f);
    ReplaySnoc(base, left, f);
    ArgsStep(t, e, ReplayArgs(es), ReplayArgs(left), f);
  }

  /** Dropping what e overrides leaves a difference that e wipes out. */
  lemma {:induction false} DroppedAgrees(t: Table, cats: set<string>, base: set<int>, rules: seq<Rule>, r: Rule)
    requires GoodTable(t) && GoodCats(cats) && AllValid(t, cats, rules) && Valid(t, cats, r)
    ensures AllValid(t, cats, Dropped(rules, r.name))
    ensures AgreeAfter(t, EffectOf(t, cats, r).value, base, Effects(t, cats, rules), Effects(t, cats, Dropped(rules, r.name)))
  {
    hide GoodTable, GoodCats, EffectOf, Covered, Overrides;
    if rules == [] {
      assert Effects(t, cats, rules) == [];
    } else {
      hide AgreeAfter, Effects, Dropped;
      var before, last := rules[..|rules| - 1], rules[|rules| - 1];
      assert rules == before + [last];
      var e, f := EffectOf(t, cats, r).value, EffectOf(t, cats, last).value;
      DroppedAgrees(t, cats, base, before, r);
      var left := Dropped(before, r.name);
      EffectsSnoc(t, cats, before, last);
      EffectsSnoc(t, cats, left, last);
      AgreeSnoc(t, e, base, Effects(t, cats, before), Effects(t, cats, left), f);
      if Covered(last.name, r.name) {
        CoveredOverrides(t, cats, r, last);
        assert Dropped(rules, r.name) == left;
      }
    }
  }

  /** Replaying the updated rules does what the rule did to the selector. */
  lemma UpdateReplays(t: Table, cats: set<string>, base: set<int>, rules: seq<Rule>, r: Rule)
    requires GoodTable(t) && GoodCats(cats) && AllValid(t, cats, rules) && Valid(t, cats, r) && base <= AllBits()
    ensures AllValid(t, cats, UpdateRules(rules, r))
    ensures var e := EffectOf(t, cats, r).value;
            var es, es' := Effects(t, cats, rules), Effects(t, cats, UpdateRules(rules, r));
            && ReplayBits(base, es') == ApplyBits(ReplayBits(base, es), e)
            && SameArgs(t, ReplayArgs(es'), ApplyArgs(ReplayArgs(es), e))
  {
    hide GoodTable, GoodCats, EffectOf, Dropped, Effects;
    DroppedAgrees(t, cats, base, rules, r);
    var left := Dropped(rules, r.name);
    EffectsSnoc(t, cats, left, r);
    Overwritten(t, EffectOf(t, cats, r).value, base, Effects(t, cats, rules), Effects(t, cats, left));
  }

  /** Once e is applied, nothing of the difference is left. */
  lemma Overwritten(t: Table, e: Effect, base: set<int>, es: seq<Effect>, left: seq<Effect>)
    requires base <= AllBits() && AgreeAfter(t, e, base, es, left)
    ensures ReplayBits(base, left + [e]) == ApplyBits(ReplayBits(base, es), e)
    ensures SameArgs(t, ReplayArgs(left + [e]), ApplyArgs(ReplayArgs(es), e))
  {
    hide ReplayBits, ReplayArgs, ApplyArgs;
    ReplaySnoc(base, left, e);
    ReplayInBitmap(base, es);
    ReplayInBitmap(base, left);
    forall id | id in ArgIds(t)
      ensures ArgsAt(ReplayArgs(left + [e]), id) == ArgsAt(ApplyArgs(ReplayArgs(es), e), id)
    {
      ArgsAfter(ReplayArgs(es), e, id);
      ArgsAfter(ReplayArgs(left), e, id);
    }
  }

  /** The same first arguments for every command that can have some. */
  ghost predicate SameArgs(t: Table, x: map<int, set<string>>, y: map<int, set<string>>) {
    forall id :: id in ArgIds(t) ==> ArgsAt(x, id) == ArgsAt(y, id)
  }

  // ------------------------------------------------- rules that replay to themselves

  /** No rule would have been dropped by a later one. */
  ghost predicate Irredundant(rules: seq<Rule>) {
    forall i, j :: 0 <= i < j < |rules| ==> !Covered(rules[i].name, rules[j].name)
  }

  ghost predicate Survives(rules: seq<Rule>, name: string) {
    forall i :: 0 <= i < |rules| ==> !Covered(rules[i].name, name)
  }

  /** What Dropped leaves is in the same order, and none of it is covered. */
  lemma {:induction false} DroppedKeeps(rules: seq<Rule>, name: string)
    requires Irredundant(rules)
    ensures Irredundant(Dropped(rules, name)) && Survives(Dropped(rules, name), name)
    ensures forall later: string :: Survives(rules, later) ==> Survives(Dropped(rules, name), later)
  {
    if rules != [] {
      var n := |rules| - 1;
      DroppedKeeps(rules[..n], name);
      var before, last := Dropped(rules[..n], name), rules[n];
      assert Survives(rules[..n], last.name);
      forall later: string | Survives(rules, later)
        ensures Survives(Dropped(rules, name), later)
      {
        assert Survives(rules[..n], later);
      }
    }
  }

  lemma {:induction false} NothingDropped(rules: seq<Rule>, name: string)
    requires Survives(rules, name)
    ensures Dropped(rules, name) == rules
  {
    if rules != [] {
      var n := |rules| - 1;
      NothingDropped(rules[..n], name);
      assert rules == rules[..n] + [rules[n]];
    }
  }

  /** The text that ACLSelectorRemoveCommandRule leaves holds the rules that Dropped leaves. */
  lemma {:induction false} DroppedTokens(rules: seq<Rule>, name: string)
    requires AllRules(Tokens(rules))
    ensures Tokens(Dropped(rules, name)) == Without(Tokens(rules), name)
  {
    if rules != [] {
      var n := |rules| - 1;
      assert Tokens(rules)[..n] == Tokens(rules[..n]);
      assert AllRules(Tokens(rules[..n])) by {
        assert forall i :: 0 <= i < n ==> Tokens(rules[..n])[i] == Tokens(rules)[i];
      }
      DroppedTokens(rules[..n], name);
      assert Token(rules[n])[1..] == rules[n].name;
      assert Tokens(Dropped(rules[..n], name) + [rules[n]]) == Tokens(Dropped(rules[..n], name)) + [Token(rules[n])];
    }
  }

  // ------------------------------------------------------------------ the invariant

  /** "+@all" or "-@all": ACLSelectorCanExecuteFutureCommands looks at the reserved bit. */
  function Base(bits: set<int>): string {
    if RESERVED_BIT in bits then "+@all" else "-@all"
  }

  function BaseBits(bits: set<int>): set<int> {
    if RESERVED_BIT in bits then AllBits() else {}
  }

  lemma EffectBounds(t: Table, cats: set<string>, r: Rule)
    requires GoodTable(t) && Valid(t, cats, r)
    ensures var e := EffectOf(t, cats, r).value;
            match e case Bits(ids, _, _) => RESERVED_BIT !in ids case AddArg(id, _) => id in ArgIds(t)
  {}

  /** Replaying the rules from the base gives the bitmap and the first arguments. */
  ghost predicate Replays(t: Table, cats: set<string>, s: Selector)
    requires AllValid(t, cats, s.rules)
  {
    var es := Effects(t, cats, s.rules);
    s.bits == ReplayBits(BaseBits(s.bits), es) && SameArgs(t, s.args, ReplayArgs(es))
  }

  ghost predicate Consistent(t: Table, cats: set<string>, s: Selector) {
    && AllValid(t, cats, s.rules) && Irredundant(s.rules)
    && s.args.Keys <= ArgIds(t)
    && Replays(t, cats, s)
  }

  lemma ChangeKeeps(t: Table, cats: set<string>, s: Selector, r: Rule)
    requires GoodTable(t) && GoodCats(cats) && Consistent(t, cats, s) && Valid(t, cats, r)
    ensures var e := EffectOf(t, cats, r).value;
            var s' := Selector(ApplyBits(s.bits, e), ApplyArgs(s.args, e), UpdateRules(s.rules, r));
            Consistent(t, cats, s') && Base(s'.bits) == Base(s.bits)
  {
    var e := EffectOf(t, cats, r).value;
    EffectBounds(t, cats, r);
    UpdateReplays(t, cats, BaseBits(s.bits), s.rules, r);
    DroppedKeeps(s.rules, r.name);
    var replayed := ReplayArgs(Effects(t, cats, s.rules));
    forall id | id in ArgIds(t)
      ensures ArgsAt(ApplyArgs(s.args, e), id) == ArgsAt(ApplyArgs(replayed, e), id)
    {
      ArgsAfter(s.args, e, id);
      ArgsAfter(replayed, e, id);
    }
  }

  /** Every operation, accepted or refused, keeps the rules and the bitmap in agreement. */
  lemma ApplyKeeps(t: Table, cats: set<string>, s: Selector, op: string)
    requires GoodTable(t) && GoodCats(cats) && Consistent(t, cats, s) && Spaceless(op) && Apply(t, cats, s, op).Some?
    ensures Consistent(t, cats, Apply(t, cats, s, op).value)
  {
    var a := Parse(t, cats, op);
    if a.Change? {
      ParseValid(t, cats, op);
      ChangeKeeps(t, cats, s, a.rule);
    } else {
      assert Effects(t, cats, []) == [];
    }
  }

  predicate AllSpaceless(ops: seq<string>) {
    forall i :: 0 <= i < |ops| ==> Spaceless(ops[i])
  }

  lemma {:induction false} RunKeeps(t: Table, cats: set<string>, s: Selector, ops: seq<string>)
    requires GoodTable(t) && GoodCats(cats) && Consistent(t, cats, s) && AllSpaceless(ops)
    ensures Consistent(t, cats, Run(t, cats, s, ops))
    decreases ops
  {
    if ops != [] {
      var next := Apply(t, cats, s, ops[0]);
      if next.Some? {
        ApplyKeeps(t, cats, s, ops[0]);
      }
      RunKeeps(t, cats, if next.Some? then next.value else s, ops[1..]);
    }
  }

  predicate AllowsAll(op: string) {
    Lower(op) == "allcommands" || Lower(op) == "+@all"
  }

  predicate DeniesAll(op: string) {
    Lower(op) == "nocommands" || Lower(op) == "-@all"
  }

  ghost predicate NeverDenied(ops: seq<string>) {
    forall i :: 0 <= i < |ops| ==> !DeniesAll(ops[i])
  }

  /** The last of the +@all and -@all operations is a +@all. */
  ghost predicate AllowedLast(ops: seq<string>) {
    exists i :: 0 <= i < |ops| && AllowsAll(ops[i]) && NeverDenied(ops[i + 1..])
  }

  lemma AllowedFirst(ops: seq<string>)
    requires ops != []
    ensures AllowedLast(ops) <==> AllowedLast(ops[1..]) || (AllowsAll(ops[0]) && NeverDenied(ops[1..]))
  {
    hide AllowsAll, NeverDenied;
    var rest := ops[1..];
    if AllowedLast(ops) {
      var i :| 0 <= i < |ops| && AllowsAll(ops[i]) && NeverDenied(ops[i + 1..]);
      if i > 0 {
        assert rest[i - 1] == ops[i] && rest[i - 1 + 1..] == ops[i + 1..];
      }
    }
    if AllowedLast(rest) {
      var i :| 0 <= i < |rest| && AllowsAll(rest[i]) && NeverDenied(rest[i + 1..]);
      assert rest[i] == ops[i + 1] && rest[i + 1..] == ops[i + 1 + 1..];
    }
  }

  lemma NeverDeniedFirst(ops: seq<string>)
    requires ops != []
    ensures NeverDenied(ops) <==> !DeniesAll(ops[0]) && NeverDenied(ops[1..])
  {
    if !DeniesAll(ops[0]) && NeverDenied(ops[1..]) {
      assert forall i :: 0 < i < |ops| ==> ops[i] == ops[1..][i - 1];
    }
  }

  /** One operation sets the reserved bit only if it is +@all and clears it only if it is -@all. */
  lemma ReservedStep(t: Table, cats: set<string>, s: Selector, op: string)
    requires GoodTable(t) && GoodCats(cats) && Spaceless(op)
    ensures var next := Apply(t, cats, s, op);
            RESERVED_BIT in (if next.Some? then next.value else s).bits <==>
            AllowsAll(op) || (RESERVED_BIT in s.bits && !DeniesAll(op))
  {
    var a := Parse(t, cats, op);
    if a.Change? {
      ParseValid(t, cats, op);
      EffectBounds(t, cats, a.rule);
    }
  }

  /** After any run the reserved bit says whether the last of its +@all and -@all operations was a +@all. */
  lemma {:induction false} ReservedBit(t: Table, cats: set<string>, s: Selector, ops: seq<string>)
    requires GoodTable(t) && GoodCats(cats) && AllSpaceless(ops)
    ensures RESERVED_BIT in Run(t, cats, s, ops).bits <==>
            AllowedLast(ops) || (RESERVED_BIT in s.bits && NeverDenied(ops))
    decreases ops
  {
    hide Apply, GoodTable, GoodCats, AllowsAll, DeniesAll;
    if ops != [] {
      var next := Apply(t, cats, s, ops[0]);
      var rest := ops[1..];
      ReservedStep(t, cats, s, ops[0]);
      ReservedBit(t, cats, if next.Some? then next.value else s, rest);
      AllowedFirst(ops);
      NeverDeniedFirst(ops);
      NotBoth(ops[0]);
    }
  }

  lemma NotBoth(op: string)
    ensures !(AllowsAll(op) && DeniesAll(op))
  {
    assert "+@all"[0] != "-@all"[0] && "allcommands"[0] != "nocommands"[0];
  }

  // ------------------------------------------------------------------- recomputing

  /** All of the operations in turn, None as soon as one is refused. */
  function ApplyAll(t: Table, cats: set<string>, s: Selector, ops: seq<string>): Option<Selector> {
    if ops == [] then Some(s)
    else
      match ApplyAll(t, cats, s, ops[..|ops| - 1])
      case None => None
      case Some(before) => Apply(t, cats, before, ops[|ops| - 1])
  }

  lemma ApplyAllSnoc(t: Table, cats: set<string>, s: Selector, ops: seq<string>, op: string)
    ensures ApplyAll(t, cats, s, ops + [op]) ==
            match ApplyAll(t, cats, s, ops) case None => None case Some(before) => Apply(t, cats, before, op)
  {
    hide Apply;
    assert (ops + [op])[..|ops|] == ops;
  }

  lemma {:induction false} ReplayTokens(t: Table, cats: set<string>, bits: set<int>, rules: seq<Rule>)
    requires GoodTable(t) && GoodCats(cats) && AllValid(t, cats, rules) && Irredundant(rules)
    ensures var es := Effects(t, cats, rules);
            ApplyAll(t, cats, Selector(bits, map[], []), Tokens(rules))
            == Some(Selector(ReplayBits(bits, es), ReplayArgs(es), rules))
    decreases rules
  {
    hide Apply, EffectOf, Valid, GoodTable, GoodCats, Covered, ApplyBits, ApplyArgs;
    if rules != [] {
      hide Effects, ReplayBits, ReplayArgs, ApplyAll, Tokens;
      var before, last := rules[..|rules| - 1], rules[|rules| - 1];
      assert rules == before + [last];
      ReplayTokens(t, cats, bits, before);
      var es := Effects(t, cats, before);
      TokensSnoc(before, last);
      EffectsSnoc(t, cats, before, last);
      ReplaySnoc(bits, es, EffectOf(t, cats, last).value);
      ApplyAllSnoc(t, cats, Selector(bits, map[], []), Tokens(before), Token(last));
      ApplyToken(t, cats, Selector(ReplayBits(bits, es), ReplayArgs(es), before), last);
    }
  }

  lemma ApplyToken(t: Table, cats: set<string>, s: Selector, r: Rule)
    requires GoodTable(t) && GoodCats(cats) && Valid(t, cats, r) && Survives(s.rules, r.name)
    ensures var e := EffectOf(t, cats, r).value;
            Apply(t, cats, s, Token(r)) == Some(Selector(ApplyBits(s.bits, e), ApplyArgs(s.args, e), s.rules + [r]))
  {
    Reparse(t, cats, r);
    NothingDropped(s.rules, r.name);
  }

  /** ACLRecomputeCommandBitsFromCommandRulesAllUsers on one selector whose rules read `text`; None is a failed assertion. */
  function Recompute(t: Table, cats: set<string>, s: Selector, text: string): Option<Selector> {
    match SplitArgs(text)
    case None => None
    case Some(argv) =>
      match Apply(t, cats, s, Base(s.bits))
      case None => None
      case Some(clean) => ApplyAll(t, cats, clean, argv)
  }

  /** The same bitmap, rules and first arguments. */
  ghost predicate Same(again: Option<Selector>, s: Selector) {
    && again.Some? && again.value.bits == s.bits && again.value.rules == s.rules
    && forall id :: ArgsAt(again.value.args, id) == ArgsAt(s.args, id)
  }

  /**
    After any operations without spaces, splitting the rules and replaying them from
    +@all or -@all is accepted and rebuilds the bitmap bit for bit, the rules and every
    list of first arguments, if and only if no rule holds a quote, a tab or a line end.
  */
  lemma RecomputeRebuilds(t: Table, cats: set<string>, ops: seq<string>)
    requires GoodTable(t) && GoodCats(cats) && AllSpaceless(ops)
    ensures var s := Run(t, cats, EMPTY, ops);
            Same(Recompute(t, cats, s, Join(Tokens(s.rules))), s) <==> AllClean(Tokens(s.rules))
  {
    assert Effects(t, cats, []) == [];
    RunKeeps(t, cats, EMPTY, ops);
    var s := Run(t, cats, EMPTY, ops);
    RebuildsConsistent(t, cats, s);
  }

  lemma ReplayArgsWhere(t: Table, cats: set<string>, rules: seq<Rule>)
    requires GoodTable(t) && AllValid(t, cats, rules)
    ensures ReplayArgs(Effects(t, cats, rules)).Keys <= ArgIds(t)
  {
    if rules != [] {
      var n := |rules| - 1;
      ReplayArgsWhere(t, cats, rules[..n]);
      assert Effects(t, cats, rules)[..n] == Effects(t, cats, rules[..n]);
      EffectBounds(t, cats, rules[n]);
    }
  }

  lemma TokensAreRules(t: Table, cats: set<string>, rules: seq<Rule>)
    requires AllValid(t, cats, rules)
    ensures AllRules(Tokens(rules))
  {
    hide EffectOf;
    forall i | 0 <= i < |rules|
      ensures IsRule(Tokens(rules)[i])
    {
      assert Valid(t, cats, rules[i]);
    }
  }

  /** Setting the rules, one by one, from their base. */
  lemma ReplayConsistent(t: Table, cats: set<string>, s: Selector)
    requires GoodTable(t) && GoodCats(cats) && Consistent(t, cats, s)
    ensures Same(ApplyAll(t, cats, Selector(BaseBits(s.bits), map[], []), Tokens(s.rules)), s)
  {
    hide Apply, EffectOf;
    ReplayTokens(t, cats, BaseBits(s.bits), s.rules);
    ReplayArgsWhere(t, cats, s.rules);
  }

  lemma RebuildsConsistent(t: Table, cats: set<string>, s: Selector)
    requires GoodTable(t) && GoodCats(cats) && Consistent(t, cats, s)
    ensures Same(Recompute(t, cats, s, Join(Tokens(s.rules))), s) <==> AllClean(Tokens(s.rules))
  {
    hide Apply, ApplyAll, EffectOf, GoodTable, GoodCats, SplitArgs, Join, Tokens, Clean;
    var ts := Tokens(s.rules);
    TokensAreRules(t, cats, s.rules);
    BaseAnywhere(t, cats, s.bits, s);
    SplitJoin(ts);
    if AllClean(ts) {
      ReplayConsistent(t, cats, s);
    } else if SplitArgs(Join(ts)).Some? {
      SplitLoses(ts);
      RulesFromOps(t, cats, Selector(BaseBits(s.bits), map[], []), SplitArgs(Join(ts)).value);
    }
  }

  /** The rules come from the operations: each from one of them, and together they are no longer. */
  lemma {:induction false} RulesFromOps(t: Table, cats: set<string>, s: Selector, ops: seq<string>)
    requires s.rules == []
    ensures var a := ApplyAll(t, cats, s, ops);
            a.Some? ==> Size(Tokens(a.value.rules)) <= Size(ops) && (AllClean(ops) ==> AllClean(Tokens(a.value.rules)))
    decreases ops
  {
    hide Apply, Size, Clean;
    if ops == [] {
      NoSize();
    } else {
      hide ApplyAll, Tokens;
      var n := |ops| - 1;
      assert ops == ops[..n] + [ops[n]];
      ApplyAllSnoc(t, cats, s, ops[..n], ops[n]);
      RulesFromOps(t, cats, s, ops[..n]);
      var before := ApplyAll(t, cats, s, ops[..n]);
      if before.Some? {
        RulesFromOp(t, cats, before.value, ops[n]);
        SizeSnoc(ops[..n], ops[n]);
      }
    }
  }

  lemma NoSize()
    ensures Size(Tokens([])) == 0
  {}

  lemma {:induction false} SizeSnoc(argv: seq<string>, x: string)
    ensures Size(argv + [x]) == Size(argv) + |x| + 1
  {
    if argv == [] {
      assert argv + [x] == [x] && [x][1..] == [];
    } else {
      assert (argv + [x])[1..] == argv[1..] + [x];
      SizeSnoc(argv[1..], x);
    }
  }

  lemma RulesFromOp(t: Table, cats: set<string>, s: Selector, op: string)
    ensures var a := Apply(t, cats, s, op);
            a.Some? ==>
              && Size(Tokens(a.value.rules)) <= Size(Tokens(s.rules)) + |op| + 1
              && (AllClean(Tokens(s.rules)) && Clean(op) ==> AllClean(Tokens(a.value.rules)))
  {
    hide EffectOf, Size, Clean, Tokens, ParseLower, Lower;
    NoSize();
    match Parse(t, cats, op) {
      case Refused =>
      case SetAll(v) =>
        NoTokens();
      case Change(r) =>
        ParsedToken(t, cats, op);
        DroppedShrinks(s.rules, r.name);
        var left := Dropped(s.rules, r.name);
        TokensSnoc(left, r);
        SizeSnoc(Tokens(left), Token(r));
        CleanLower(op);
    }
  }

  lemma NoTokens()
    ensures Tokens([]) == []
  {}

  lemma CleanLower(op: string)
    ensures Clean(op) ==> Clean(Lower(op))
  {}

  /** A change is stored as the operation in lower case. */
  lemma ParsedToken(t: Table, cats: set<string>, op: string)
    requires Parse(t, cats, op).Change?
    ensures Token(Parse(t, cats, op).rule) == Lower(op)
  {
    var low := Lower(op);
    assert low == [low[0]] + low[1..];
  }

  lemma {:induction false} DroppedShrinks(rules: seq<Rule>, name: string)
    ensures Size(Tokens(Dropped(rules, name))) <= Size(Tokens(rules))
    ensures AllClean(Tokens(rules)) ==> AllClean(Tokens(Dropped(rules, name)))
  {
    hide Clean, Size, Covered;
    if rules != [] {
      var n := |rules| - 1;
      var before, last := rules[..n], rules[n];
      DroppedShrinks(before, name);
      assert rules == before + [last];
      TokensSnoc(before, last);
      TokensSnoc(Dropped(before, name), last);
      SizeSnoc(Tokens(before), Token(last));
      SizeSnoc(Tokens(Dropped(before, name)), Token(last));
      assert AllClean(Tokens(rules)) ==> AllClean(Tokens(before)) && Clean(Token(last)) by {
        assert Tokens(rules)[n] == Token(last);
        assert forall i :: 0 <= i < n ==> Tokens(rules)[i] == Tokens(before)[i];
      }
    }
  }

  /** A first argument of get, whatever it is. */
  lemma GetArgument(t: Table, cats: set<string>, get: Command, s: Selector, arg: string)
    requires GoodTable(t) && get.name == "get" && get.subs == [] && FindCommand(t, "get") == Some(get)
    requires IsLower(arg) && arg != "" && '|' !in arg && s.args == map[] && s.rules == []
    ensures var again := Apply(t, cats, s, "+get|" + arg);
            again.Some? && again.value.bits == s.bits && again.value.rules == [Rule(true, "get|" + arg)]
  {
    hide GoodTable, ParseAllow, EffectOf, ParseDeny, LastBar;
    var text, op := "get|" + arg, "+get|" + arg;
    GetParsed(t, cats, get, arg);
    assert Lower(op) == op;
    assert op[1..] == text && op[0] == '+' && op[1] == 'g';
    assert op != "allcommands" && op != "nocommands" && op != "+@all" && op != "-@all" by {
      assert "allcommands"[0] == 'a' && "nocommands"[0] == 'n' && "+@all"[1] == '@' && "-@all"[0] == '-';
    }
    assert UpdateRules([], Rule(true, text)) == [Rule(true, text)];
  }

  lemma GetParsed(t: Table, cats: set<string>, get: Command, arg: string)
    requires GoodTable(t) && get.name == "get" && get.subs == [] && FindCommand(t, "get") == Some(get)
    requires arg != "" && '|' !in arg
    ensures ParseAllow(t, "get|" + arg) == Change(Rule(true, "get|" + arg))
    ensures EffectOf(t, cats, Rule(true, "get|" + arg)) == Some(AddArg(get.id, arg))
  {
    var text := "get|" + arg;
    BarOfGet(arg);
    assert text[..3] == "get" && text[4..] == arg && text[0] == 'g';
    assert Lookup(t, "get") == Top(get) by {
      assert '|' !in "get";
    }
    LookupBar(t, text);
    hide Lookup, GoodTable, FindCommand, LastBar;
  }

  lemma BarOfGet(arg: string)
    requires '|' !in arg
    ensures LastBar("get|" + arg) == 3
  {
    var text := "get|" + arg;
    assert text[3] == '|';
    assert forall j :: 4 <= j < |text| ==> text[j] == arg[j - 4] && arg[j - 4] in arg;
  }

  lemma RunOne(t: Table, cats: set<string>, s: Selector, op: string)
    requires Apply(t, cats, s, op).Some?
    ensures Run(t, cats, s, [op]) == Apply(t, cats, s, op).value
  {
    hide Apply;
    assert [op][1..] == [];
  }

  /** +get|" is accepted, and then the rules do not split: the assertion of the source fails. */
  lemma QuoteBreaksRules(t: Table, cats: set<string>, get: Command)
    requires GoodTable(t) && get.name == "get" && get.subs == [] && FindCommand(t, "get") == Some(get)
    ensures var s := Run(t, cats, EMPTY, ["+get|\""]);
            s.rules == [Rule(true, "get|\"")] && Recompute(t, cats, s, Join(Tokens(s.rules))) == None
  {
    hide Apply, GoodTable, FindCommand, SplitArgs, Join;
    var r := Rule(true, "get|\"");
    QuoteText();
    GetArgument(t, cats, get, EMPTY, "\"");
    RunOne(t, cats, EMPTY, "+get|\"");
    hide Run;
    assert Tokens([r]) == [Token(r)];
    JoinOne("+get|\"");
    SplitQuote();
  }

  lemma QuoteText()
    ensures "+get|" + "\"" == "+get|\"" && "get|" + "\"" == "get|\"" && IsLower("\"")
    ensures Token(Rule(true, "get|\"")) == "+get|\""
  {
    assert Lower("\"") == "\"";
  }

  lemma SplitQuote()
    ensures SplitArgs("+get|\"") == None
  {
    assert "+get|\"" == "+get|" + "\"" + "";
    BareQuote("+get|", "", "");
  }

  lemma {:induction false} BareQuote(w: string, rest: string, current: string)
    requires Clean(w)
    ensures Bare(w + "\"" + rest, current) == Quoted(rest, current + w)
    decreases |w|
  {
    var s := w + "\"" + rest;
    if w == "" {
      assert s[1..] == rest && current + w == current;
    } else {
      assert s[1..] == w[1..] + "\"" + rest;
      BareQuote(w[1..], rest, current + [w[0]]);
      assert current + [w[0]] + w[1..] == current + w;
    }
  }

  /** The base, then the rules. */
  function Description(s: Selector): seq<string> {
    [Base(s.bits)] + Tokens(s.rules)
  }

  /** ACLDescribeSelectorCommandRules, with its check on a fake selector; None is a failed assertion or the panic. */
  function Describe(t: Table, cats: set<string>, s: Selector): Option<string> {
    match SplitArgs(Join(Tokens(s.rules)))
    case None => None
    case Some(argv) =>
      match ApplyAll(t, cats, EMPTY, [Base(s.bits)] + argv)
      case None => None
      case Some(fake) => if fake.bits == s.bits then Some(Join(Description(s))) else None
  }

  lemma {:induction false} ApplyAllFirst(t: Table, cats: set<string>, s: Selector, op: string, ops: seq<string>)
    ensures ApplyAll(t, cats, s, [op] + ops) ==
            match Apply(t, cats, s, op) case None => None case Some(s') => ApplyAll(t, cats, s', ops)
    decreases ops
  {
    hide Apply;
    var all := [op] + ops;
    if ops == [] {
      assert all[..0] == [] && ApplyAll(t, cats, s, all[..0]) == Some(s);
    } else {
      var n := |ops| - 1;
      assert all[..|all| - 1] == [op] + ops[..n];
      ApplyAllFirst(t, cats, s, op, ops[..n]);
    }
  }

  lemma {:induction false} SpacesJoin(words: seq<string>)
    requires words != [] && AllSpaceless(words)
    ensures SplitSpaces(Join(words)) == words
    decreases words
  {
    hide SplitSpaces, Join;
    var w, rest := words[0], words[1..];
    assert words == [w] + rest;
    JoinSplit([w], rest);
    JoinOne(w);
    if rest == [] {
      FirstSpace(w, "");
      assert w + "" == w;
    } else {
      SpacesJoin(rest);
      FirstSpace(w, " " + Join(rest));
      assert w + (" " + Join(rest)) == Join(words) && (" " + Join(rest))[1..] == Join(rest);
    }
  }

  /**
    A description given back word by word, split at the spaces as in an ACL file, sets any
    selector to the described one; read as arguments of a configuration line it does so
    if and only if no rule holds a quote, a tab or a line end.
  */
  lemma DescriptionSetsBack(t: Table, cats: set<string>, ops: seq<string>, other: Selector)
    requires GoodTable(t) && GoodCats(cats) && AllSpaceless(ops)
    ensures var s := Run(t, cats, EMPTY, ops);
            var text := Join(Description(s));
            && Same(ApplyAll(t, cats, other, SplitSpaces(text)), s)
            && (SplitArgs(text).Some? && Same(ApplyAll(t, cats, other, SplitArgs(text).value), s) <==> AllClean(Tokens(s.rules)))
            && (AllClean(Tokens(s.rules)) ==> Describe(t, cats, s) == Some(text))
  {
    assert Effects(t, cats, []) == [];
    RunKeeps(t, cats, EMPTY, ops);
    var s := Run(t, cats, EMPTY, ops);
    SetsBackConsistent(t, cats, s, other);
    SetsBackAsArguments(t, cats, s, other);
    DescribesConsistent(t, cats, s);
  }

  lemma DescriptionWords(t: Table, cats: set<string>, s: Selector)
    requires AllValid(t, cats, s.rules)
    ensures AllRules(Description(s)) && AllSpaceless(Description(s)) && (AllClean(Description(s)) <==> AllClean(Tokens(s.rules)))
  {
    hide EffectOf;
    TokensAreRules(t, cats, s.rules);
    var words, ts := Description(s), Tokens(s.rules);
    forall i | 0 <= i < |ts|
      ensures ts[i] == words[i + 1]
    {}
    assert forall i :: 0 < i < |words| ==> words[i] == ts[i - 1];
  }

  lemma SetsBackConsistent(t: Table, cats: set<string>, s: Selector, other: Selector)
    requires GoodTable(t) && GoodCats(cats) && Consistent(t, cats, s)
    ensures Same(ApplyAll(t, cats, other, Description(s)), s)
    ensures Same(ApplyAll(t, cats, other, SplitSpaces(Join(Description(s)))), s)
  {
    hide Apply, ApplyAll, EffectOf, Same;
    DescriptionWords(t, cats, s);
    SpacesJoin(Description(s));
    BaseAnywhere(t, cats, s.bits, other);
    ApplyAllFirst(t, cats, other, Base(s.bits), Tokens(s.rules));
    ReplayConsistent(t, cats, s);
  }

  lemma SetsBackAsArguments(t: Table, cats: set<string>, s: Selector, other: Selector)
    requires GoodTable(t) && GoodCats(cats) && Consistent(t, cats, s)
    ensures var text := Join(Description(s));
            SplitArgs(text).Some? && Same(ApplyAll(t, cats, other, SplitArgs(text).value), s) <==> AllClean(Tokens(s.rules))
  {
    hide Apply, ApplyAll, EffectOf, SplitArgs, Join, Clean, Tokens, Description;
    var words := Description(s);
    DescriptionWords(t, cats, s);
    SplitJoin(words);
    SetsBackConsistent(t, cats, s, other);
    if !AllClean(words) && SplitArgs(Join(words)).Some? {
      SplitLoses(words);
      BaseFirst(t, cats, s, other);
    }
  }

  /** Read as arguments, the rules are fewer characters, or lose what is not clean. */
  lemma BaseFirst(t: Table, cats: set<string>, s: Selector, other: Selector)
    requires AllValid(t, cats, s.rules) && !AllClean(Tokens(s.rules)) && SplitArgs(Join(Description(s))).Some?
    requires var argv := SplitArgs(Join(Description(s))).value; Size(argv) < Size(Description(s)) || AllClean(argv)
    ensures var a := ApplyAll(t, cats, other, SplitArgs(Join(Description(s))).value); a.Some? ==> a.value.rules != s.rules
  {
    hide Apply, ApplyAll, EffectOf, Tokens, Size, Clean;
    TokensAreRules(t, cats, s.rules);
    var b, ts := Base(s.bits), Tokens(s.rules);
    var text := Join(ts);
    JoinSplit([b], ts);
    JoinOne(b);
    assert Clean(b) by {
      BaseClean(s.bits);
    }
    SplitFirst(b, text);
    var argv := SplitArgs(text).value;
    ApplyAllFirst(t, cats, other, b, argv);
    BaseAnywhere(t, cats, s.bits, other);
    RulesFromOps(t, cats, Selector(BaseBits(s.bits), map[], []), argv);
    SizeCons(b, argv);
    SizeCons(b, ts);
    assert forall i :: 0 <= i < |argv| ==> ([b] + argv)[i + 1] == argv[i];
  }

  lemma BaseClean(bits: set<int>)
    ensures Clean(Base(bits)) && IsRule(Base(bits))
  {}

  lemma SizeCons(x: string, argv: seq<string>)
    ensures Size([x] + argv) == |x| + 1 + Size(argv)
  {
    assert ([x] + argv)[1..] == argv;
  }

  lemma DescribesConsistent(t: Table, cats: set<string>, s: Selector)
    requires GoodTable(t) && GoodCats(cats) && Consistent(t, cats, s)
    ensures AllClean(Tokens(s.rules)) ==> Describe(t, cats, s) == Some(Join(Description(s)))
  {
    hide Apply, ApplyAll, EffectOf, SplitArgs, Join, Clean, Tokens;
    TokensAreRules(t, cats, s.rules);
    SplitJoin(Tokens(s.rules));
    SetsBackConsistent(t, cats, s, EMPTY);
  }

  lemma BaseAnywhere(t: Table, cats: set<string>, bits: set<int>, other: Selector)
    ensures Apply(t, cats, other, Base(bits)) == Some(Selector(BaseBits(bits), map[], []))
  {
    assert Lower("+@all") == "+@all";
    assert Lower("-@all") == "-@all";
  }
}
