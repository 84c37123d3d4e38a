/**
  Strings (src/sds.c): lower case, splitting a line into arguments with both kinds of
  quotes, and printing a string so that it can be read back as one argument.

  A C string ends at its first '\0'.
*/
module Sds {
  import opened Wrappers

  function LowerChar(c: char): char {
    if 'A' <= c <= 'Z' then c - 'A' + 'a' else c
  }

  /** sdstolower */
  function Lower(s: string): (r: string)
    ensures |r| == |s| && forall i :: 0 <= i < |s| ==> r[i] == LowerChar(s[i])
  {
    seq(|s|, i requires 0 <= i < |s| => LowerChar(s[i]))
  }

  // ------------------------------------------------------------------ splitting

  function At(s: string, i: nat): char {
    if i < |s| then s[i] else '\0'
  }

  predicate IsSpace(c: char) {
    c == ' ' || c == '\t' || c == '\n' || c == '\r' || c == '\U{00000b}' || c == '\U{00000c}'
  }

  predicate IsHex(c: char) {
    '0' <= c <= '9' || 'a' <= c <= 'f' || 'A' <= c <= 'F'
  }

  function HexValue(c: char): (n: nat)
    requires IsHex(c)
    ensures n < 16
  {
    if c <= '9' then (c - '0') as nat else if c <= 'F' then 10 + (c - 'A') as nat else 10 + (c - 'a') as nat
  }

  function Unescape(c: char): char {
    if c == 'n' then '\n' else if c == 'r' then '\r' else if c == 't' then '\t'
    else if c == 'b' then '\U{000008}' else if c == 'a' then '\U{000007}' else c
  }

  datatype Argument = Unbalanced | Argument(text: string, rest: string)

  /** Inside double quotes. */
  function Quoted(s: string, current: string): (r: Argument)
    ensures r.Argument? ==> |r.rest| < |s|
  {
    if At(s, 0) == '\\' && At(s, 1) == 'x' && IsHex(At(s, 2)) && IsHex(At(s, 3)) then
      Quoted(s[4..], current + [(16 * HexValue(At(s, 2)) + HexValue(At(s, 3))) as char])
    else if At(s, 0) == '\\' && At(s, 1) != '\0' then Quoted(s[2..], current + [Unescape(At(s, 1))])
    else if At(s, 0) == '"' then
      if At(s, 1) != '\0' && !IsSpace(At(s, 1)) then Unbalanced else Argument(current, s[1..])
    else if At(s, 0) == '\0' then Unbalanced
    else Quoted(s[1..], current + [s[0]])
  }

  /** Inside single quotes. */
  function SingleQuoted(s: string, current: string): (r: Argument)
    ensures r.Argument? ==> |r.rest| < |s|
  {
    if At(s, 0) == '\\' && At(s, 1) == '\'' then SingleQuoted(s[2..], current + "'")
    else if At(s, 0) == '\'' then
      if At(s, 1) != '\0' && !IsSpace(At(s, 1)) then Unbalanced else Argument(current, s[1..])
    else if At(s, 0) == '\0' then Unbalanced
    else SingleQuoted(s[1..], current + [s[0]])
  }

  /** The blanks that end an argument; isspace, which skips them in between, knows two more. */
  predicate EndsWord(c: char) {
    c == ' ' || c == '\n' || c == '\r' || c == '\t'
  }

  predicate IsQuote(c: char) {
    c == '"' || c == '\''
  }

  /** Outside quotes; an argument ends with the first quotes that close. */
  function Bare(s: string, current: string): (r: Argument)
    ensures r.Argument? ==> |r.rest| <= |s| && (At(s, 0) != '\0' ==> |r.rest| < |s|)
  {
    if At(s, 0) == '\0' then Argument(current, s)
    else if EndsWord(s[0]) then Argument(current, s[1..])
    else if s[0] == '"' then Quoted(s[1..], current)
    else if s[0] == '\'' then SingleQuoted(s[1..], current)
    else Bare(s[1..], current + [s[0]])
  }

  /** sdssplitargs: None for quotes that do not balance or are followed by something else than a blank. */
  function SplitArgs(s: string): Option<seq<string>>
    decreases |s|
  {
    if At(s, 0) == '\0' then Some([])
    else if IsSpace(s[0]) then SplitArgs(s[1..])
    else
      match Bare(s, "")
      case Unbalanced => None
      case Argument(text, rest) =>
        match SplitArgs(rest)
        case None => None
        case Some(others) => Some([text] + others)
  }

  /** sdssplitargs, one character at a time. */
  method Sdssplitargs(line: string) returns (argv: Option<seq<string>>)
    ensures argv == SplitArgs(line)
  {
    var vector: seq<string> := [];
    var p := 0;
    assert line[0..] == line;
    PrependNothing(SplitArgs(line));
    while true
      invariant 0 <= p <= |line|
      invariant SplitArgs(line) == Prepend(vector, SplitArgs(line[p..]))
      decreases |line| - p
    {
      while p < |line| && line[p] != '\0' && IsSpace(line[p])
        invariant 0 <= p <= |line|
        invariant SplitArgs(line) == Prepend(vector, SplitArgs(line[p..]))
      {
        assert line[p..][1..] == line[p + 1..];
        p := p + 1;
      }
      if p == |line| || line[p] == '\0' {
        assert vector + [] == vector;
        return Some(vector);
      }
      ghost var start := p;
      var r, q := ReadArgument(line, p);
      if r.None? {
        return None;
      }
      Prepended(vector, r.value, SplitArgs(line[q..]));
      vector, p := vector + [r.value], q;
    }
  }

  function Prepend(vector: seq<string>, others: Option<seq<string>>): Option<seq<string>> {
    if others.None? then None else Some(vector + others.value)
  }

  lemma PrependNothing(others: Option<seq<string>>)
    ensures Prepend([], others) == others
  {
    if others.Some? {
      assert [] + others.value == others.value;
    }
  }

  lemma Prepended(vector: seq<string>, text: string, others: Option<seq<string>>)
    ensures Prepend(vector, Prepend([text], others)) == Prepend(vector + [text], others)
  {
    if others.Some? {
      assert vector + ([text] + others.value) == vector + [text] + others.value;
    }
  }

  /** What is read from position p on: the argument and where the rest starts, or the jump to err. */
  ghost predicate Reads(line: string, a: Argument, r: Option<string>, p: nat) {
    match a
    case Unbalanced => r == None
    case Argument(text, rest) => r == Some(text) && p <= |line| && rest == line[p..]
  }

  /** The loop that gets one argument, as long as it is in double quotes. */
  method ReadQuoted(line: string, start: nat, before: string) returns (r: Option<string>, p: nat)
    requires start <= |line|
    ensures Reads(line, Quoted(line[start..], before), r, p) && (r.Some? ==> start < p)
  {
    hide Quoted, IsSpace, HexValue, Unescape;
    p := start;
    var current := before;
    while true
      invariant start <= p <= |line| && Quoted(line[start..], before) == Quoted(line[p..], current)
      decreases |line| - p
    {
      var c, next := At(line, p), At(line, p + 1);
      QuotedAt(line, p, current);
      if c == '\\' && next == 'x' && IsHex(At(line, p + 2)) && IsHex(At(line, p + 3)) {
        current := current + [(16 * HexValue(At(line, p + 2)) + HexValue(At(line, p + 3))) as char];
        p := p + 4;
      } else if c == '\\' && next != '\0' {
        current := current + [Unescape(next)];
        p := p + 2;
      } else if c == '"' {
        return if next != '\0' && !IsSpace(next) then None else Some(current), p + 1;
      } else if c == '\0' {
        return None, p;
      } else {
        current := current + [c];
        p := p + 1;
      }
    }
  }

  /** As long as it is in single quotes. */
  method ReadSingleQuoted(line: string, start: nat, before: string) returns (r: Option<string>, p: nat)
    requires start <= |line|
    ensures Reads(line, SingleQuoted(line[start..], before), r, p) && (r.Some? ==> start < p)
  {
    hide IsSpace, SingleQuoted;
    p := start;
    var current := before;
    while true
      invariant start <= p <= |line| && SingleQuoted(line[start..], before) == SingleQuoted(line[p..], current)
      decreases |line| - p
    {
      var c, next := At(line, p), At(line, p + 1);
      SingleQuotedAt(line, p, current);
      if c == '\\' && next == '\'' {
        current := current + "'";
        p := p + 2;
      } else if c == '\'' {
        return if next != '\0' && !IsSpace(next) then None else Some(current), p + 1;
      } else if c == '\0' {
        return None, p;
      } else {
        current := current + [c];
        p := p + 1;
      }
    }
  }

  /** And before any quotes. */
  method ReadArgument(line: string, start: nat) returns (r: Option<string>, p: nat)
    requires start < |line| && line[start] != '\0'
    ensures Reads(line, Bare(line[start..], ""), r, p) && (r.Some? ==> start < p)
  {
    hide Quoted, SingleQuoted;
    p := start;
    var current := "";
    while true
      invariant start <= p <= |line| && Bare(line[start..], "") == Bare(line[p..], current)
      decreases |line| - p
    {
      var c := At(line, p);
      Ahead(line, p);
      if c == '\0' {
        return Some(current), p;
      } else if EndsWord(c) {
        return Some(current), p + 1;
      } else if c == '"' {
        r, p := ReadQuoted(line, p + 1, current);
        return;
      } else if c == '\'' {
        r, p := ReadSingleQuoted(line, p + 1, current);
        return;
      }
      current := current + [c];
      p := p + 1;
    }
  }

  lemma QuotedAt(line: string, p: nat, current: string)
    requires p <= |line|
    ensures var c, next := At(line, p), At(line, p + 1);
            Quoted(line[p..], current) ==
            if c == '\\' && next == 'x' && IsHex(At(line, p + 2)) && IsHex(At(line, p + 3)) then
              Quoted(line[p + 4..], current + [(16 * HexValue(At(line, p + 2)) + HexValue(At(line, p + 3))) as char])
            else if c == '\\' && next != '\0' then Quoted(line[p + 2..], current + [Unescape(next)])
            else if c == '"' then if next != '\0' && !IsSpace(next) then Unbalanced else Argument(current, line[p + 1..])
            else if c == '\0' then Unbalanced
            else Quoted(line[p + 1..], current + [c])
  {
    hide IsSpace, HexValue, Unescape;
    Ahead(line, p);
  }

  lemma SingleQuotedAt(line: string, p: nat, current: string)
    requires p <= |line|
    ensures var c, next := At(line, p), At(line, p + 1);
            SingleQuoted(line[p..], current) ==
            if c == '\\' && next == '\'' then SingleQuoted(line[p + 2..], current + "'")
            else if c == '\'' then if next != '\0' && !IsSpace(next) then Unbalanced else Argument(current, line[p + 1..])
            else if c == '\0' then Unbalanced
            else SingleQuoted(line[p + 1..], current + [c])
  {
    hide IsSpace;
    Ahead(line, p);
  }

  lemma Ahead(line: string, p: nat)
    requires p <= |line|
    ensures var s := line[p..];
            && At(s, 0) == At(line, p) && At(s, 1) == At(line, p + 1)
            && At(s, 2) == At(line, p + 2) && At(s, 3) == At(line, p + 3)
            && (p < |line| ==> s[0] == line[p] && s[1..] == line[p + 1..])
            && (p + 1 < |line| ==> s[2..] == line[p + 2..]) && (p + 3 < |line| ==> s[4..] == line[p + 4..])
  {}

  // ------------------------------------------------------- which words come back

  /** Nothing that ends an argument or quotes. */
  predicate Clean(s: string) {
    forall i :: 0 <= i < |s| ==> !EndsWord(s[i]) && !IsQuote(s[i]) && s[i] != '\0'
  }

  ghost predicate HasQuote(s: string) {
    exists i :: 0 <= i < |s| && IsQuote(s[i])
  }

  predicate NoNul(s: string) {
    forall i :: 0 <= i < |s| ==> s[i] != '\0'
  }

  /** A clean word, up to its end or the space behind it. */
  lemma {:induction false} BareClean(w: string, rest: string, current: string)
    requires Clean(w) && (rest == "" || rest[0] == ' ')
    ensures Bare(w + rest, current) == Argument(current + w, if rest == "" then "" else rest[1..])
    decreases |w|
  {
    if w == "" {
      assert w + rest == rest && current + w == current;
    } else {
      assert (w + rest)[1..] == w[1..] + rest;
      BareClean(w[1..], rest, current + [w[0]]);
      assert current + [w[0]] + w[1..] == current + w;
    }
  }

  /** The arguments with one separator each. */
  function Size(argv: seq<string>): nat {
    if argv == [] then 0 else |argv[0]| + 1 + Size(argv[1..])
  }

  lemma {:induction false} QuotedSize(s: string, current: string)
    ensures var r := Quoted(s, current); r.Argument? ==> |r.text| + |r.rest| + 1 <= |s| + |current|
    decreases |s|
  {
    if At(s, 0) == '\\' && At(s, 1) == 'x' && IsHex(At(s, 2)) && IsHex(At(s, 3)) {
      QuotedSize(s[4..], current + [(16 * HexValue(At(s, 2)) + HexValue(At(s, 3))) as char]);
    } else if At(s, 0) == '\\' && At(s, 1) != '\0' {
      QuotedSize(s[2..], current + [Unescape(At(s, 1))]);
    } else if At(s, 0) != '"' && At(s, 0) != '\0' {
      QuotedSize(s[1..], current + [s[0]]);
    }
  }

  lemma {:induction false} SingleQuotedSize(s: string, current: string)
    ensures var r := SingleQuoted(s, current); r.Argument? ==> |r.text| + |r.rest| + 1 <= |s| + |current|
    decreases |s|
  {
    if At(s, 0) == '\\' && At(s, 1) == '\'' {
      SingleQuotedSize(s[2..], current + "'");
    } else if At(s, 0) != '\'' && At(s, 0) != '\0' {
      SingleQuotedSize(s[1..], current + [s[0]]);
    }
  }

  lemma QuoteRest(s: string)
    requires s != "" && HasQuote(s) && !IsQuote(s[0])
    ensures HasQuote(s[1..])
  {
    var i :| 0 <= i < |s| && IsQuote(s[i]);
    assert s[1..][i - 1] == s[i];
  }

  /** Quotes cost two characters, a blank costs one. */
  lemma {:induction false} BareSize(s: string, current: string)
    requires NoNul(s)
    ensures var r := Bare(s, current);
            r.Argument? ==>
              var n := |r.text| + |r.rest|;
              || n + 2 <= |s| + |current|
              || (n + 1 == |s| + |current| && (HasQuote(s) ==> HasQuote(r.rest)))
              || (n == |s| + |current| && r.rest == "" && !HasQuote(s))
    decreases |s|
  {
    if s != "" {
      if s[0] == '"' {
        QuotedSize(s[1..], current);
      } else if s[0] == '\'' {
        SingleQuotedSize(s[1..], current);
      } else {
        if HasQuote(s) {
          QuoteRest(s);
        }
        if !EndsWord(s[0]) {
          BareSize(s[1..], current + [s[0]]);
        }
      }
    }
  }

  lemma {:induction false} QuotedRest(s: string, current: string)
    requires NoNul(s)
    ensures var r := Quoted(s, current); r.Argument? ==> NoNul(r.rest)
    decreases |s|
  {
    if At(s, 0) == '\\' && At(s, 1) == 'x' && IsHex(At(s, 2)) && IsHex(At(s, 3)) {
      QuotedRest(s[4..], current + [(16 * HexValue(At(s, 2)) + HexValue(At(s, 3))) as char]);
    } else if At(s, 0) == '\\' && At(s, 1) != '\0' {
      QuotedRest(s[2..], current + [Unescape(At(s, 1))]);
    } else if At(s, 0) != '"' && At(s, 0) != '\0' {
      QuotedRest(s[1..], current + [s[0]]);
    }
  }

  lemma {:induction false} SingleQuotedRest(s: string, current: string)
    requires NoNul(s)
    ensures var r := SingleQuoted(s, current); r.Argument? ==> NoNul(r.rest)
    decreases |s|
  {
    if At(s, 0) == '\\' && At(s, 1) == '\'' {
      SingleQuotedRest(s[2..], current + "'");
    } else if At(s, 0) != '\'' && At(s, 0) != '\0' {
      SingleQuotedRest(s[1..], current + [s[0]]);
    }
  }

  lemma {:induction false} RestNoNul(s: string, current: string)
    requires NoNul(s)
    ensures var r := Bare(s, current); r.Argument? ==> NoNul(r.rest)
    decreases |s|
  {
    if s != "" {
      if s[0] == '"' {
        QuotedRest(s[1..], current);
      } else if s[0] == '\'' {
        SingleQuotedRest(s[1..], current);
      } else if !EndsWord(s[0]) {
        RestNoNul(s[1..], current + [s[0]]);
      }
    }
  }

  /** The arguments are no longer than the line, and shorter if it has quotes. */
  lemma {:induction false} SplitSize(s: string)
    requires NoNul(s) && SplitArgs(s).Some?
    ensures Size(SplitArgs(s).value) <= |s| + 1
    ensures HasQuote(s) ==> Size(SplitArgs(s).value) <= |s|
    decreases |s|
  {
    if s != "" {
      if IsSpace(s[0]) {
        SplitSize(s[1..]);
        if HasQuote(s) {
          QuoteRest(s);
        }
      } else {
        BareSize(s, "");
        RestNoNul(s, "");
        var r := Bare(s, "");
        SplitSize(r.rest);
        assert ([r.text] + SplitArgs(r.rest).value)[1..] == SplitArgs(r.rest).value;
      }
    }
  }

  lemma {:induction false} BareWithoutQuotes(s: string, current: string)
    requires NoNul(s) && !HasQuote(s) && Clean(current)
    ensures var r := Bare(s, current); r.Argument? && Clean(r.text) && !HasQuote(r.rest) && NoNul(r.rest)
    decreases |s|
  {
    if s != "" {
      assert !IsQuote(s[0]);
      assert !HasQuote(s[1..]) by {
        assert forall i :: 0 <= i < |s| - 1 ==> s[1..][i] == s[i + 1];
      }
      if !EndsWord(s[0]) {
        BareWithoutQuotes(s[1..], current + [s[0]]);
      }
    }
  }

  /** Without quotes the line always splits, into clean words. */
  lemma {:induction false} SplitWithoutQuotes(s: string)
    requires NoNul(s) && !HasQuote(s)
    ensures SplitArgs(s).Some? && forall i :: 0 <= i < |SplitArgs(s).value| ==> Clean(SplitArgs(s).value[i])
    decreases |s|
  {
    if s != "" {
      assert !HasQuote(s[1..]) by {
        assert forall i :: 0 <= i < |s| - 1 ==> s[1..][i] == s[i + 1];
      }
      if IsSpace(s[0]) {
        SplitWithoutQuotes(s[1..]);
      } else {
        BareWithoutQuotes(s, "");
        SplitWithoutQuotes(Bare(s, "").rest);
      }
    }
  }

  // ------------------------------------------------------------------- printing

  /** isprint, in the C locale. */
  predicate IsPrint(c: char) {
    ' ' <= c <= '~'
  }

  predicate NeedsEscape(c: char) {
    c == '\\' || c == '"' || !IsPrint(c) || IsSpace(c)
  }

  /** sdsneedsrepr */
  predicate NeedsRepr(s: string) {
    exists i :: 0 <= i < |s| && NeedsEscape(s[i])
  }

  method Sdsneedsrepr(s: string) returns (r: bool)
    ensures r == NeedsRepr(s)
  {
    var p := 0;
    while p < |s|
      invariant 0 <= p <= |s| && forall i :: 0 <= i < p ==> !NeedsEscape(s[i])
    {
      if || s[p] == '\\' || s[p] == '"' || s[p] == '\n' || s[p] == '\r' || s[p] == '\t'
         || s[p] == '\U{000007}' || s[p] == '\U{000008}' || !IsPrint(s[p]) || IsSpace(s[p]) {
        return true;
      }
      p := p + 1;
    }
    return false;
  }

  predicate Bytes(s: string) {
    forall i :: 0 <= i < |s| ==> s[i] as nat < 256
  }

  function HexDigit(n: nat): (c: char)
    requires n < 16
    ensures IsHex(c) && HexValue(c) == n
  {
    if n < 10 then '0' + n as char else 'a' + (n - 10) as char
  }

  function Escape(c: char): string {
    if c == '\\' || c == '"' then ['\\', c]
    else if c == '\n' then "\\n"
    else if c == '\r' then "\\r"
    else if c == '\t' then "\\t"
    else if c == '\U{000007}' then "\\a"
    else if c == '\U{000008}' then "\\b"
    else if IsPrint(c) then [c]
    else ['\\', 'x', HexDigit(c as nat / 16 % 16), HexDigit(c as nat % 16)]
  }

  function EscapeAll(s: string): string {
    if s == "" then "" else Escape(s[0]) + EscapeAll(s[1..])
  }

  function Repr(s: string): string {
    "\"" + EscapeAll(s) + "\""
  }

  /** sdscatrepr */
  method Sdscatrepr(s: string, p: string) returns (r: string)
    ensures r == s + Repr(p)
  {
    hide Escape;
    r := s + "\"";
    var i := 0;
    while i < |p|
      invariant 0 <= i <= |p| && r + EscapeAll(p[i..]) == s + "\"" + EscapeAll(p)
    {
      assert p[i..][1..] == p[i + 1..];
      assert r + (Escape(p[i]) + EscapeAll(p[i + 1..])) == r + Escape(p[i]) + EscapeAll(p[i + 1..]);
      r := r + Escape(p[i]);
      i := i + 1;
    }
    assert r + "" == r;
    r := r + "\"";
  }

  /** What strchr finds in the set given to sdstrim: the blanks that end an argument, and its own end. */
  predicate IsTrimmed(c: char) {
    EndsWord(c) || c == '\0'
  }

  function TrimLeft(s: string): string {
    if s != "" && IsTrimmed(s[0]) then TrimLeft(s[1..]) else s
  }

  function TrimRight(s: string): string {
    if s != "" && IsTrimmed(s[|s| - 1]) then TrimRight(s[..|s| - 1]) else s
  }

  function Trim(s: string): string {
    TrimRight(TrimLeft(s))
  }

  lemma CutLast(s: string, sp: nat, ep: nat)
    requires sp < ep <= |s|
    ensures s[sp..ep][..ep - 1 - sp] == s[sp..ep - 1]
  {}

  method Sdstrim(s: string) returns (r: string)
    ensures r == Trim(s)
  {
    var sp, ep := 0, |s|;
    assert s[0..] == s;
    while sp < |s| && IsTrimmed(s[sp])
      invariant 0 <= sp <= |s| && TrimLeft(s[sp..]) == TrimLeft(s)
    {
      assert s[sp..][1..] == s[sp + 1..];
      sp := sp + 1;
    }
    assert s[sp..ep] == s[sp..];
    while ep > sp && IsTrimmed(s[ep - 1])
      invariant sp <= ep <= |s| && TrimRight(s[sp..ep]) == Trim(s)
    {
      CutLast(s, sp, ep);
      ep := ep - 1;
    }
    r := s[sp..ep];
  }

  /** One escaped character is read as itself, whatever follows. */
  lemma EscapeBack(c: char, rest: string, current: string)
    requires c as nat < 256
    ensures Quoted(Escape(c) + rest, current) == Quoted(rest, current + [c])
  {
    var e := Escape(c);
    hide Quoted;
    if |e| == 1 {
      CharBack(c, rest, current);
    } else if |e| == 2 {
      LetterBack(e[1], rest, current);
      assert e == ['\\', e[1]] && Unescape(e[1]) == c;
    } else {
      HexBack(c as nat / 16, c as nat % 16, rest, current);
    }
  }

  lemma CharBack(c: char, rest: string, current: string)
    requires c != '\\' && c != '"' && c != '\0'
    ensures Quoted([c] + rest, current) == Quoted(rest, current + [c])
  {
    assert ([c] + rest)[1..] == rest;
  }

  lemma LetterBack(c: char, rest: string, current: string)
    requires c != 'x' && c != '\0'
    ensures Quoted(['\\', c] + rest, current) == Quoted(rest, current + [Unescape(c)])
  {
    hide Unescape;
    assert (['\\', c] + rest)[2..] == rest;
  }

  lemma HexBack(high: nat, low: nat, rest: string, current: string)
    requires high < 16 && low < 16
    ensures Quoted(['\\', 'x', HexDigit(high), HexDigit(low)] + rest, current)
            == Quoted(rest, current + [(16 * high + low) as char])
  {
    hide HexDigit, HexValue;
    var s := ['\\', 'x', HexDigit(high), HexDigit(low)] + rest;
    assert s[4..] == rest;
  }

  lemma QuotesClose(rest: string, current: string)
    requires rest == "" || rest[0] == ' '
    ensures Quoted("\"" + rest, current) == Argument(current, rest)
  {
    var tail := "\"" + rest;
    assert tail[1..] == rest;
  }

  lemma {:induction false} QuotedBack(name: string, rest: string, current: string)
    requires Bytes(name) && (rest == "" || rest[0] == ' ')
    ensures Quoted(EscapeAll(name) + ("\"" + rest), current) == Argument(current + name, rest)
    decreases |name|
  {
    hide Quoted, Escape;
    var tail := "\"" + rest;
    if name == "" {
      assert EscapeAll(name) + tail == tail && current + name == current;
      QuotesClose(rest, current);
    } else {
      assert EscapeAll(name) + tail == Escape(name[0]) + (EscapeAll(name[1..]) + tail);
      EscapeBack(name[0], EscapeAll(name[1..]) + tail, current);
      QuotedBack(name[1..], rest, current + [name[0]]);
      assert current + [name[0]] + name[1..] == current + name;
    }
  }

  /** A quoted string and a blank: the string is the first argument. */
  lemma SplitRepr(name: string, rest: string)
    requires Bytes(name)
    ensures SplitArgs(Repr(name) + (" " + rest)) == Prepend([name], SplitArgs(rest))
  {
    var s := Repr(name) + (" " + rest);
    assert Bare(s, "") == Argument(name, " " + rest) by {
      BareRepr(name, " " + rest);
    }
    assert s[0] == '"';
    hide Bare, Repr;
    assert (" " + rest)[1..] == rest;
  }

  lemma BareRepr(name: string, rest: string)
    requires Bytes(name) && (rest == "" || rest[0] == ' ')
    ensures Bare(Repr(name) + rest, "") == Argument(name, rest)
  {
    hide Quoted, Bare, EscapeAll;
    var t := EscapeAll(name) + ("\"" + rest);
    assert Repr(name) + rest == "\"" + t;
    QuotesOpen(t);
    QuotedBack(name, rest, "");
    assert "" + name == name;
  }

  lemma QuotesOpen(t: string)
    ensures Bare("\"" + t, "") == Quoted(t, "")
  {
    hide Quoted;
    assert ("\"" + t)[1..] == t;
  }

  /** So is a clean word. */
  lemma SplitWord(w: string, rest: string)
    requires Clean(w) && w != "" && !IsSpace(w[0])
    ensures SplitArgs(w + (" " + rest)) == Prepend([w], SplitArgs(rest))
    ensures SplitArgs(w) == Some([w])
  {
    hide Bare;
    BareClean(w, " " + rest, "");
    BareClean(w, "", "");
    assert "" + w == w && w + "" == w && (" " + rest)[1..] == rest;
    assert SplitArgs("") == Some([]) && [w] + [] == [w];
  }

  /** Without double quotes and backslashes no argument has a single quote. */
  ghost predicate NoEscapes(s: string) {
    '"' !in s && '\\' !in s
  }

  lemma {:induction false} SingleQuotedDrops(s: string, current: string)
    requires NoEscapes(s) && '\'' !in current
    ensures var r := SingleQuoted(s, current); r.Argument? ==> '\'' !in r.text && NoEscapes(r.rest)
    ensures '\'' !in s ==> SingleQuoted(s, current) == Unbalanced
    decreases |s|
  {
    if s != "" {
      assert s[0] in s;
      if s[0] != '\'' && s[0] != '\0' {
        SingleQuotedDrops(s[1..], current + [s[0]]);
      }
    }
  }

  lemma {:induction false} BareDrops(s: string, current: string)
    requires NoEscapes(s) && '\'' !in current
    ensures var r := Bare(s, current); r.Argument? ==> '\'' !in r.text && NoEscapes(r.rest)
    decreases |s|
  {
    if s != "" {
      assert s[0] in s;
      if s[0] == '\'' {
        SingleQuotedDrops(s[1..], current);
      } else if s[0] != '\0' && !EndsWord(s[0]) {
        BareDrops(s[1..], current + [s[0]]);
      }
    }
  }

  lemma {:induction false} SplitDrops(s: string)
    requires NoEscapes(s)
    ensures var r := SplitArgs(s); r.Some? ==> forall i :: 0 <= i < |r.value| ==> '\'' !in r.value[i]
    decreases |s|
  {
    if s != "" && s[0] != '\0' {
      if IsSpace(s[0]) {
        SplitDrops(s[1..]);
      } else {
        BareDrops(s, "");
        var r := Bare(s, "");
        if r.Argument? {
          SplitDrops(r.rest);
        }
      }
    }
  }

  /** The characters at the ends of the ranges. */
  lemma CharacterClasses()
    ensures LowerChar('A') == 'a' && LowerChar('Z') == 'z' && LowerChar('@') == '@' && LowerChar('[') == '['
    ensures IsHex('0') && IsHex('9') && IsHex('a') && IsHex('f') && IsHex('A') && IsHex('F')
    ensures !IsHex('/') && !IsHex(':') && !IsHex('`') && !IsHex('g') && !IsHex('@') && !IsHex('G')
    ensures IsPrint(' ') && IsPrint('~') && !IsPrint('\t')
    ensures HexValue('0') == 0 && HexValue('9') == 9 && HexValue('a') == 10 && HexValue('f') == 15 && HexValue('A') == 10 && HexValue('F') == 15
  {}
}
