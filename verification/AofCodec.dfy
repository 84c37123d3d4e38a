/**
  The bytes of the append-only file (src/aof.c): the encoder that
  feedAppendOnlyFile uses and the recovering reader of loadSingleAppendOnlyFile.
  A char stands for a byte.
*/
module AofCodec {
  import Decimal

  type Command = seq<string>

  // ------------------------------------------------------------------ encoding

  function Bulk(a: string): string {
    "$" + Decimal.Print(|a|) + "\r\n" + a + "\r\n"
  }

  function Bulks(argv: seq<string>): string {
    if argv == [] then "" else Bulk(argv[0]) + Bulks(argv[1..])
  }

  function Header(argc: nat): string {
    "*" + Decimal.Print(argc) + "\r\n"
  }

  function Encode(argv: Command): string {
    Header(|argv|) + Bulks(argv)
  }

  lemma {:induction false} BulksSplit(a: seq<string>, b: seq<string>)
    ensures Bulks(a + b) == Bulks(a) + Bulks(b)
  {
    if a == [] {
      assert a + b == b;
    } else {
      assert (a + b)[1..] == a[1..] + b;
      BulksSplit(a[1..], b);
    }
  }

  /** catAppendOnlyGenericCommand. */
  method CatAppendOnlyGenericCommand(dst: string, argv: Command) returns (r: string)
    ensures r == dst + Encode(argv)
  {
    assert Bulks(argv[..0]) == "";
    hide Bulks, Bulk, Decimal.Print;
    var buf := "*" + Decimal.Print(|argv|) + "\r\n";
    r := dst + buf;
    hide Header;
    for j := 0 to |argv|
      invariant r == dst + Header(|argv|) + Bulks(argv[..j])
    {
      ghost var done := Bulks(argv[..j]);
      r := CatBulk(r, argv[j]);
      assert dst + Header(|argv|) + done + Bulk(argv[j]) == dst + Header(|argv|) + (done + Bulk(argv[j]));
      BulksGrow(argv, j);
    }
    assert argv[..|argv|] == argv;
  }

  /** The body of its loop. */
  method CatBulk(dst: string, arg: string) returns (r: string)
    ensures r == dst + Bulk(arg)
  {
    var buf := "$" + Decimal.Print(|arg|) + "\r\n";
    r := dst + buf;
    r := r + arg;
    r := r + "\r\n";
  }

  lemma BulksGrow(argv: seq<string>, j: nat)
    requires j < |argv|
    ensures Bulks(argv[..j + 1]) == Bulks(argv[..j]) + Bulk(argv[j])
  {
    assert argv[..j + 1] == argv[..j] + [argv[j]];
    BulksSplit(argv[..j], [argv[j]]);
    assert Bulks([argv[j]]) == Bulk(argv[j]);
  }

  // ------------------------------------------------------------------- reading

  /** sizeof(buf) - 1 */
  const LINE_MAX := 1023

  /** What fgets leaves in buf: up to and including a newline, at most max bytes. */
  function Fgets(s: string, max: nat): (line: string)
    ensures |line| <= |s| && line == s[..|line|]
    ensures s != "" && max > 0 ==> line != ""
    decreases s
  {
    if s == "" || max == 0 then ""
    else if s[0] == '\n' then "\n"
    else [s[0]] + Fgets(s[1..], max - 1)
  }

  /** fgets stopped because the file ended. */
  predicate HitEof(s: string, line: string) {
    |line| == |s| < LINE_MAX && '\n' !in line
  }

  datatype Arg = Arg(arg: string, used: nat) | ShortArg | BadArg | HugeArg

  /**
    One argument: its length line, its bytes, and two more. A missing byte is a short
    read. A negative length, being unsigned, is more than sdsnewlen can allocate.
  */
  function ReadArg(s: string): (r: Arg)
    ensures r.Arg? ==> r.used <= |s|
  {
    if s == "" then ShortArg
    else
      var line := Fgets(s, LINE_MAX);
      if line[0] != '$' then BadArg
      else
        var len := Decimal.Atoi(line[1..]);
        var rest := s[|line|..];
        if len < 0 then HugeArg
        else if |rest| < len then ShortArg
        else if |rest| < len + 2 then ShortArg
        else Arg(rest[..len], |line| + len + 2)
  }

  datatype Args = Args(argv: seq<string>, used: nat) | ShortArgs | BadArgs | HugeArgs

  /** The loop over n arguments. */
  function ReadArgs(s: string, n: nat): (r: Args)
    ensures r.Args? ==> r.used <= |s| && |r.argv| == n
    decreases n
  {
    if n == 0 then Args([], 0)
    else
      match ReadArg(s)
      case ShortArg => ShortArgs
      case BadArg => BadArgs
      case HugeArg => HugeArgs
      case Arg(arg, used) =>
        match ReadArgs(s[used..], n - 1)
        case Args(argv, more) => Args([arg] + argv, used + more)
        case ShortArgs => ShortArgs
        case BadArgs => BadArgs
        case HugeArgs => HugeArgs
  }

  /** Abort: the server does not survive the read. */
  datatype Read = Whole(argv: Command, used: nat) | Annotation(used: nat) | Eof | Short | Bad | Abort

  /** One turn of the reading loop. */
  function ReadCommand(s: string): (r: Read)
    ensures Advances(s, r)
  {
    if s == "" then Eof
    else
      var line := Fgets(s, LINE_MAX);
      if line[0] == '#' then Annotation(|line|)
      else if line[0] != '*' then Bad
      else if |line| == 1 || line[1] == '\0' then (if HitEof(s, line) then Short else Bad)
      else
        var argc := Decimal.Atoi(line[1..]);
        if argc < 1 then Bad
        else
          match ReadArgs(s[|line|..], argc)
          case Args(argv, used) => Whole(argv, |line| + used)
          case ShortArgs => Short
          case BadArgs => Bad
          case HugeArgs => Abort
  }

  predicate Advances(s: string, r: Read) {
    && (r.Whole? ==> 0 < r.used <= |s| && |r.argv| >= 1)
    && (r.Annotation? ==> 0 < r.used <= |s|)
  }

  /** A way of reading the next command that makes progress. */
  type Reader = read: string -> Read | forall s: string :: Advances(s, read(s)) witness (s: string) => Eof

  // -------------------------------------------------------- reading back a line

  lemma {:induction false} FgetsLine(body: string, rest: string, max: nat)
    requires '\n' !in body && |body| < max
    ensures Fgets(body + "\n" + rest, max) == body + "\n"
    decreases max
  {
    var s := body + "\n" + rest;
    if body == "" {
      assert s[0] == '\n';
    } else {
      assert s[1..] == body[1..] + "\n" + rest && s[0] == body[0];
      FgetsLine(body[1..], rest, max - 1);
      assert [body[0]] + (body[1..] + "\n") == body + "\n";
    }
  }

  lemma {:induction false} FgetsWhole(s: string, max: nat)
    requires '\n' !in s && |s| <= max
    ensures Fgets(s, max) == s
    decreases max
  {
    if s != "" {
      FgetsWhole(s[1..], max - 1);
    }
  }

  function Pow10(k: nat): nat {
    if k == 0 then 1 else 10 * Pow10(k - 1)
  }

  lemma {:induction false} PrintLength(n: nat, k: nat)
    requires n < Pow10(k) && k >= 1
    ensures |Decimal.Print(n)| <= k
    decreases k
  {
    if n >= 10 {
      PrintLength(n / 10, k - 1);
    }
  }

  const LONG_MAX := 0x7fff_ffff_ffff_ffff

  /** Counts and lengths that fit the C types print as short lines. */
  lemma ShortNumeral(n: nat)
    requires n <= LONG_MAX
    ensures |Decimal.Print(n)| <= 20
  {
    assert Pow10(5) == 100000;
    assert Pow10(10) == 100000 * Pow10(5);
    assert Pow10(15) == 100000 * Pow10(10);
    assert Pow10(20) == 100000 * Pow10(15);
    PrintLength(n, 20);
  }

  predicate Fits(argv: Command) {
    1 <= |argv| <= LONG_MAX && forall i :: 0 <= i < |argv| ==> |argv[i]| <= LONG_MAX
  }

  /** A tag, a numeral and CRLF: the line is read back whole and the number with it. */
  lemma LineBack(tag: char, n: nat, rest: string)
    requires n <= LONG_MAX && tag != '\n'
    ensures var line := [tag] + Decimal.Print(n) + "\r\n";
            && Fgets(line + rest, LINE_MAX) == line
            && Decimal.Atoi(line[1..]) == n
  {
    var body := [tag] + Decimal.Print(n) + "\r";
    var line := [tag] + Decimal.Print(n) + "\r\n";
    ShortNumeral(n);
    assert '\n' !in body;
    assert line + rest == body + "\n" + rest;
    FgetsLine(body, rest, LINE_MAX);
    assert line[1..] == Decimal.Print(n) + "\r\n";
    Decimal.AtoiPrint(n, "\r\n");
  }

  lemma ArgBack(a: string, rest: string)
    requires |a| <= LONG_MAX
    ensures ReadArg(Bulk(a) + rest) == Arg(a, |Bulk(a)|)
  {
    hide Fgets, Decimal.Print, Decimal.Atoi;
    var line, tail := "$" + Decimal.Print(|a|) + "\r\n", a + "\r\n" + rest;
    var s := Bulk(a) + rest;
    assert s == line + tail;
    LineBack('$', |a|, tail);
    assert s[|line|..] == tail && tail[..|a|] == a && s[0] == line[0] == '$';
  }

  lemma NextArg(a: string, more: string, n: nat)
    requires |a| <= LONG_MAX
    ensures ReadArgs(Bulk(a) + more, n + 1) ==
            match ReadArgs(more, n) case Args(argv, used) => Args([a] + argv, |Bulk(a)| + used) case r => r
  {
    hide ReadArg, Bulk;
    ArgBack(a, more);
    assert (Bulk(a) + more)[|Bulk(a)|..] == more;
  }

  lemma {:induction false} ArgsBack(argv: seq<string>, rest: string)
    requires forall i :: 0 <= i < |argv| ==> |argv[i]| <= LONG_MAX
    ensures ReadArgs(Bulks(argv) + rest, |argv|) == Args(argv, |Bulks(argv)|)
    decreases argv
  {
    hide ReadArg, Bulk;
    if argv != [] {
      var more := Bulks(argv[1..]) + rest;
      assert Bulks(argv) + rest == Bulk(argv[0]) + more;
      hide Bulks, ReadArgs;
      ArgsBack(argv[1..], rest);
      NextArg(argv[0], more, |argv| - 1);
      assert argv == [argv[0]] + argv[1..];
    } else {
      assert Bulks(argv) + rest == rest;
    }
  }

  lemma CommandBack(argv: Command, rest: string)
    requires Fits(argv)
    ensures ReadCommand(Encode(argv) + rest) == Whole(argv, |Encode(argv)|)
  {
    var s := Encode(argv) + rest;
    var line := Header(|argv|);
    assert s == line + (Bulks(argv) + rest);
    LineBack('*', |argv|, Bulks(argv) + rest);
    assert s[|line|..] == Bulks(argv) + rest;
    assert Decimal.IsDigit(line[1]);
    ArgsBack(argv, rest);
  }

  /** The bytes of GET k. */
  lemma EncodedGet()
    ensures Encode(["GET", "k"]) == "*2\r\n" + ("$3\r\n" + "GET" + "\r\n") + ("$1\r\n" + "k" + "\r\n")
  {
    OneDigit();
    hide Decimal.Print;
    assert ["GET", "k"][1..] == ["k"] && ["k"][1..] == [];
    assert Bulks(["k"]) == Bulk("k") + "" && Bulks(["GET", "k"]) == Bulk("GET") + Bulks(["k"]);
    assert Bulk("k") == "$" + "1" + "\r\n" + "k" + "\r\n" && Bulk("GET") == "$" + "3" + "\r\n" + "GET" + "\r\n";
    assert "$" + "1" == "$1" && "$" + "3" == "$3" && "*" + "2" == "*2";
  }

  lemma OneDigit()
    ensures Decimal.Print(1) == "1" && Decimal.Print(2) == "2" && Decimal.Print(3) == "3"
  {}

  // ------------------------------------------------------------------ a damaged file

  /** Where a command should start there is neither one nor an annotation. */
  lemma DamagedStart(s: string)
    requires s != "" && s[0] != '*' && s[0] != '#'
    ensures ReadCommand(s) == Bad
  {}

  /** Nor is a count that starts with a NUL byte a short read. */
  lemma NulCount(x: string, rest: string)
    requires '\n' !in x && |x| + 3 <= LINE_MAX
    ensures ReadCommand("*\0" + x + "\n" + rest) == Bad
  {
    var body := "*\0" + x;
    FgetsLine(body, rest, LINE_MAX);
    assert (body + "\n")[|body|] == '\n';
  }

  /** Where an argument should start there is none. */
  lemma {:induction false} DamagedArgs(argv: seq<string>, n: nat, rest: string)
    requires (forall i :: 0 <= i < |argv| ==> |argv[i]| <= LONG_MAX) && |argv| < n && rest != "" && rest[0] != '$'
    ensures ReadArgs(Bulks(argv) + rest, n) == BadArgs
    decreases argv
  {
    hide ReadArg, Bulk;
    if argv == [] {
      assert Bulks(argv) + rest == rest;
      DamagedArg(rest);
    } else {
      var more := Bulks(argv[1..]) + rest;
      assert Bulks(argv) + rest == Bulk(argv[0]) + more;
      NextArg(argv[0], more, n - 1);
      DamagedArgs(argv[1..], n - 1, rest);
    }
  }

  lemma DamagedArg(rest: string)
    requires rest != "" && rest[0] != '$'
    ensures ReadArg(rest) == BadArg
  {}

  lemma DamagedCommand(argv: seq<string>, n: nat, rest: string)
    requires (forall i :: 0 <= i < |argv| ==> |argv[i]| <= LONG_MAX) && |argv| < n <= LONG_MAX && rest != "" && rest[0] != '$'
    ensures ReadCommand(Header(n) + (Bulks(argv) + rest)) == Bad
  {
    var line, tail := Header(n), Bulks(argv) + rest;
    LineBack('*', n, tail);
    assert (line + tail)[|line|..] == tail;
    assert Decimal.IsDigit(line[1]);
    DamagedArgs(argv, n, rest);
  }

  /** A line that starts with '#' is passed over. */
  lemma AnnotationPassed(note: string, rest: string)
    requires '\n' !in note && |note| + 2 <= LINE_MAX
    ensures ReadCommand("#" + note + "\n" + rest) == Annotation(|note| + 2)
  {
    var body := "#" + note;
    FgetsLine(body, rest, LINE_MAX);
  }

  // ----------------------------------------------------------- a file cut short

  lemma {:induction false} PrintLead(n: nat)
    requires n >= 1
    ensures Decimal.Print(n)[0] != '0'
  {
    if n >= 10 {
      PrintLead(n / 10);
    }
  }

  lemma {:induction false} ValuePositive(s: string)
    requires s != "" && Decimal.AllDigits(s) && s[0] != '0'
    ensures Decimal.Value(s) >= 1
  {
    if |s| > 1 {
      ValuePositive(s[..|s| - 1]);
    }
  }

  /** Part of a numeral is still a number, and not zero if some of it is left. */
  lemma NumeralCut(n: nat, k: nat)
    requires k <= |Decimal.Print(n)| + 1
    ensures var a := Decimal.Atoi((Decimal.Print(n) + "\r")[..k]); a >= 0 && (n >= 1 && k >= 1 ==> a >= 1)
  {
    var p := Decimal.Print(n);
    var s := (p + "\r")[..k];
    var d := if k <= |p| then p[..k] else p;
    var rest := if k <= |p| then "" else "\r";
    assert s == d + rest;
    Decimal.DigitSpanStops(d, rest);
    assert s[..|d|] == d;
    if k >= 1 && n >= 1 {
      PrintLead(n);
      ValuePositive(d);
    }
    if k == 0 {
      assert s == "";
    }
  }

  /** What fgets returns of a line whose end is missing: all there is. */
  lemma LineCut(tag: char, n: nat, k: nat)
    requires n <= LONG_MAX && tag != '\n' && 1 <= k < |[tag] + Decimal.Print(n) + "\r\n"|
    ensures var s := ([tag] + Decimal.Print(n) + "\r\n")[..k];
            && Fgets(s, LINE_MAX) == s && '\n' !in s && |s| < LINE_MAX
            && s[1..] == (Decimal.Print(n) + "\r")[..k - 1]
  {
    var body := [tag] + Decimal.Print(n) + "\r";
    ShortNumeral(n);
    var s := ([tag] + Decimal.Print(n) + "\r\n")[..k];
    assert s == body[..k];
    assert '\n' !in body;
    FgetsWhole(s, LINE_MAX);
  }

  lemma ArgCut(a: string, k: nat)
    requires |a| <= LONG_MAX && k < |Bulk(a)|
    ensures ReadArg(Bulk(a)[..k]) == ShortArg
  {
    var line := "$" + Decimal.Print(|a|) + "\r\n";
    var s := Bulk(a)[..k];
    if k == 0 {
    } else if k < |line| {
      assert s == line[..k];
      LineCut('$', |a|, k);
      NumeralCut(|a|, k - 1);
    } else {
      var part := (a + "\r\n")[..k - |line|];
      assert s == line + part;
      LineBack('$', |a|, part);
    }
  }

  lemma {:induction false} ArgsCut(argv: seq<string>, k: nat)
    requires forall i :: 0 <= i < |argv| ==> |argv[i]| <= LONG_MAX
    requires k < |Bulks(argv)|
    ensures ReadArgs(Bulks(argv)[..k], |argv|) == ShortArgs
    decreases argv
  {
    hide ReadArg, Bulk;
    var first := Bulk(argv[0]);
    var s := Bulks(argv)[..k];
    if k < |first| {
      assert s == first[..k];
      ArgCut(argv[0], k);
    } else {
      var more := Bulks(argv[1..])[..k - |first|];
      assert s == first + more;
      hide ReadArgs, Bulks;
      NextArg(argv[0], more, |argv| - 1);
      ArgsCut(argv[1..], k - |first|);
    }
  }

  lemma HeaderCut(n: nat, k: nat)
    requires 1 <= n <= LONG_MAX && 1 <= k < |Header(n)|
    ensures ReadCommand(Header(n)[..k]) == Short
  {
    var s := Header(n)[..k];
    LineCut('*', n, k);
    NumeralCut(n, k - 1);
    if k >= 2 {
      assert s[1] == Decimal.Print(n)[0];
      assert s[|s|..] == "";
      assert ReadArgs("", Decimal.Atoi(s[1..])) == ShortArgs;
    }
  }

  lemma BodyCut(argv: Command, k: nat)
    requires Fits(argv) && k < |Bulks(argv)|
    ensures ReadCommand(Header(|argv|) + Bulks(argv)[..k]) == Short
  {
    var line, more := Header(|argv|), Bulks(argv)[..k];
    LineBack('*', |argv|, more);
    assert (line + more)[|line|..] == more;
    assert Decimal.IsDigit(line[1]);
    ArgsCut(argv, k);
  }

  /** Any proper prefix of a command is a short read; none of it at all is a clean end. */
  lemma CommandCut(argv: Command, k: nat)
    requires Fits(argv) && k < |Encode(argv)|
    ensures ReadCommand(Encode(argv)[..k]) == if k == 0 then Eof else Short
  {
    var line := Header(|argv|);
    if 0 < k < |line| {
      HeaderCut(|argv|, k);
      assert Encode(argv)[..k] == line[..k];
    } else if k >= |line| {
      BodyCut(argv, k - |line|);
      assert Encode(argv)[..k] == line + Bulks(argv)[..k - |line|];
    }
  }

  // ----------------------------------------------------------- the reading loops

  /** The first half of the loop body: the next command, or why there is none. */
  method ReadOne(s: string) returns (r: Read)
    ensures r == ReadCommand(s)
  {
    if s == "" {
      return Eof;
    }
    var buf := Fgets(s, LINE_MAX);
    if buf[0] == '#' {
      return Annotation(|buf|);
    }
    if buf[0] != '*' {
      return Bad;
    }
    if |buf| == 1 || buf[1] == '\0' {
      return if HitEof(s, buf) then Short else Bad;
    }
    var argc := Decimal.Atoi(buf[1..]);
    if argc < 1 {
      return Bad;
    }
    var args := ReadArguments(s[|buf|..], argc);
    match args
    case ShortArgs => return Short;
    case BadArgs => return Bad;
    case HugeArgs => return Abort;
    case Args(argv, used) => return Whole(argv, |buf| + used);
  }

  /** The inner loop over the arguments. */
  method ReadArguments(s: string, argc: nat) returns (r: Args)
    ensures r == ReadArgs(s, argc)
  {
    var argv, used, rest := [], 0, s;
    for j := 0 to argc
      invariant ReadArgs(s, argc) == Joined(argv, used, ReadArgs(rest, argc - j))
    {
      var one := ReadArg(rest);
      match one
      case ShortArg =>
        return ShortArgs;
      case BadArg =>
        return BadArgs;
      case HugeArg =>
        return HugeArgs;
      case Arg(arg, n) =>
        JoinedStep(argv, used, arg, n, ReadArgs(rest[n..], argc - j - 1));
        argv, used, rest := argv + [arg], used + n, rest[n..];
    }
    assert argv + [] == argv;
    return Args(argv, used);
  }

  /** Arguments read so far, followed by what the rest gives. */
  function Joined(argv: seq<string>, used: nat, r: Args): Args {
    if r.Args? then Args(argv + r.argv, used + r.used) else r
  }

  lemma JoinedStep(argv: seq<string>, n: nat, arg: string, used: nat, r: Args)
    ensures Joined(argv, n, Joined([arg], used, r)) == Joined(argv + [arg], n + used, r)
  {
    if r.Args? {
      assert argv + ([arg] + r.argv) == argv + [arg] + r.argv;
    }
  }
}
