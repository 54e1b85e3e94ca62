/** The self-update command line: three layers of shell quoting, each read back by a POSIX token recogniser. */
module Shell {

  /** shellQuote: single quotes around the value, each inner single quote as '"'"'. */
  function Quote(value: string): string {
    "'" + (Inner(value) + "'")
  }

  function Inner(value: string): string {
    if value == [] then [] else (if value[0] == '\'' then "'\"'\"'" else [value[0]]) + Inner(value[1..])
  }

  // ---- token recognition (sections 2.2.2, 2.2.3 and 2.3 of the POSIX.1-2017 Shell Command Language) ----

  datatype Token = Word(text: string) | Operator(op: string) | IONumber(digits: string)

  /** The word being collected; bare while nothing in it was quoted. */
  datatype Pending = NoWord | Part(text: string, bare: bool)

  datatype Mode = Unquoted | Single | Double

  datatype Lexed = Unsupported | Tokens(tokens: seq<Token>)

  function Prepend(ts: seq<Token>, l: Lexed): Lexed {
    if l.Unsupported? then l else Tokens(ts + l.tokens)
  }

  function Extend(p: Pending, text: string, bare: bool): Pending {
    if p.NoWord? then Part(text, bare) else Part(p.text + text, p.bare && bare)
  }

  function Flush(p: Pending): seq<Token> {
    if p.NoWord? then [] else [Word(p.text)]
  }

  predicate IsDigits(s: string) {
    s != [] && forall i | 0 <= i < |s| :: '0' <= s[i] <= '9'
  }

  /** A bare number before a redirection is its file descriptor. */
  function FlushBefore(p: Pending, c: char): seq<Token> {
    if p.Part? && p.bare && IsDigits(p.text) && c in {'<', '>'} then [IONumber(p.text)] else Flush(p)
  }

  predicate IsBlank(c: char) {
    c == ' ' || c == '\t'
  }

  predicate TwoCharacterOperator(a: char, b: char) {
    (a == b && a in {'&', '|', ';'}) || (a == '<' && b in {'<', '&', '>'}) || (a == '>' && b in {'>', '&', '|'})
  }

  /** The length of the longest operator s starts with. */
  function OperatorLength(s: string): (n: nat)
    ensures n <= |s|
  {
    if s == [] || s[0] !in {'&', '|', ';', '<', '>', '(', ')', '\n'} then 0
    else if |s| >= 3 && s[0] == '<' && s[1] == '<' && s[2] == '-' then 3
    else if |s| >= 2 && TwoCharacterOperator(s[0], s[1]) then 2
    else 1
  }

  /** Characters without any special meaning outside quotes. */
  predicate IsPlain(c: char) {
    'a' <= c <= 'z' || 'A' <= c <= 'Z' || '0' <= c <= '9' || c in {'-', '_', '.', '/', ':', ',', '@', '+'}
  }

  /** Tokens of s; Unsupported when an expansion, an escape, a pattern or an open quote would be involved. */
  function Lex(s: string, mode: Mode, p: Pending): Lexed {
    if s == [] then (if mode == Unquoted then Tokens(Flush(p)) else Unsupported)
    else
      var c, rest := s[0], s[1..];
      match mode
      case Single => if c == '\'' then Lex(rest, Unquoted, p) else Lex(rest, Single, Extend(p, [c], false))
      case Double =>
        if c == '"' then Lex(rest, Unquoted, p)
        else if c in {'$', '`', '\\'} then Unsupported
        else Lex(rest, Double, Extend(p, [c], false))
      case Unquoted =>
        if c == '\'' then Lex(rest, Single, Extend(p, [], false))
        else if c == '"' then Lex(rest, Double, Extend(p, [], false))
        else if IsBlank(c) then Prepend(Flush(p), Lex(rest, Unquoted, NoWord))
        else if OperatorLength(s) > 0 then
          Prepend(FlushBefore(p, c) + [Operator(s[..OperatorLength(s)])], Lex(s[OperatorLength(s)..], Unquoted, NoWord))
        else if IsPlain(c) then Lex(rest, Unquoted, Extend(p, [c], true))
        else Unsupported
  }

  // ---- quoting round trip ----

  lemma SingleStep(c: char, rest: string, p: Pending)
    ensures Lex([c] + rest, Single, p) == if c == '\'' then Lex(rest, Unquoted, p)
      else Lex(rest, Single, Extend(p, [c], false))
  {
    assert ([c] + rest)[1..] == rest;
  }

  lemma UnquotedQuote(c: char, rest: string, p: Pending)
    requires c in {'\'', '"'}
    ensures Lex([c] + rest, Unquoted, p) == Lex(rest, if c == '"' then Double else Single, Extend(p, [], false))
  {
    assert ([c] + rest)[1..] == rest;
  }

  lemma DoubleStep(c: char, rest: string, p: Pending)
    requires c !in {'$', '`', '\\'}
    ensures Lex([c] + rest, Double, p) == if c == '"' then Lex(rest, Unquoted, p)
      else Lex(rest, Double, Extend(p, [c], false))
  {
    assert ([c] + rest)[1..] == rest;
  }

  lemma InnerCons(value: string, tail: string)
    requires value != []
    ensures Inner(value) + tail == (if value[0] == '\'' then "'\"'\"'" else [value[0]]) + (Inner(value[1..]) + tail)
  {
  }

  lemma ExtendTwice(p: Pending, a: string, b: string)
    requires p.Part?
    ensures Extend(Extend(p, a, false), b, false) == Extend(p, a + b, false)
  {
    assert (p.text + a) + b == p.text + (a + b);
  }

  /** Inside single quotes the escaped value is read back character by character. */
  lemma {:induction false} InnerReadsBack(value: string, rest: string, p: Pending)
    requires p.Part? && !p.bare
    ensures Lex(Inner(value) + ("'" + rest), Single, p) == Lex(rest, Unquoted, Extend(p, value, false))
  {
    hide Lex;
    if value == [] {
      assert Inner(value) + ("'" + rest) == ['\''] + rest;
      SingleStep('\'', rest, p);
      assert Extend(p, value, false).text == p.text;
    } else {
      var t := Inner(value[1..]) + ("'" + rest);
      InnerCons(value, "'" + rest);
      InnerReadsBack(value[1..], rest, Extend(p, [value[0]], false));
      ExtendTwice(p, [value[0]], value[1..]);
      assert [value[0]] + value[1..] == value;
      hide Inner, Extend;
      if value[0] == '\'' {
        ApostropheReadsBack(t, p);
      } else {
        SingleStep(value[0], t, p);
      }
    }
  }

  /** An apostrophe leaves the single quotes, is quoted doubly, and enters them again. */
  lemma ApostropheReadsBack(t: string, p: Pending)
    requires !p.NoWord?
    ensures Lex("'\"'\"'" + t, Single, p) == Lex(t, Single, Extend(p, "'", false))
  {
    hide Lex;
    var d := Extend(p, [], false);
    assert d.text == p.text && Extend(Extend(d, "'", false), [], false) == Extend(p, "'", false);
    assert "'\"'\"'" + t == ['\''] + ("\"'\"'" + t) && "\"'\"'" + t == ['"'] + ("'\"'" + t);
    assert "'\"'" + t == ['\''] + ("\"'" + t) && "\"'" + t == ['"'] + ("'" + t) && "'" + t == ['\''] + t;
    SingleStep('\'', "\"'\"'" + t, p);
    UnquotedQuote('"', "'\"'" + t, p);
    DoubleStep('\'', "\"'" + t, d);
    DoubleStep('"', "'" + t, Extend(d, "'", false));
    UnquotedQuote('\'', t, Extend(d, "'", false));
  }

  /** A quoted value is one word, the value itself. */
  lemma QuoteReadsBack(value: string, rest: string)
    ensures Lex(Quote(value) + rest, Unquoted, NoWord) == Lex(rest, Unquoted, Part(value, false))
  {
    var s := Quote(value) + rest;
    assert s == "'" + (Inner(value) + ("'" + rest));
    assert s[1..] == Inner(value) + ("'" + rest);
    assert s[0] == '\'';
    InnerReadsBack(value, rest, Part([], false));
    assert [] + value == value;
  }

  // ---- command lines ----

  datatype Item = Plain(word: string) | Quoted(value: string) | Op(op: string) | ErrToOut

  predicate WellFormed(i: Item) {
    match i
    case Plain(w) => w != [] && forall k | 0 <= k < |w| :: IsPlain(w[k])
    case Quoted(_) => true
    case Op(op) => op in {"&&", ">>", "<", "&"}
    case ErrToOut => true
  }

  function Text(i: Item): string {
    match i
    case Plain(w) => w
    case Quoted(v) => Quote(v)
    case Op(op) => op
    case ErrToOut => "2>&1"
  }

  function TokensOf(i: Item): seq<Token> {
    match i
    case Plain(w) => [Word(w)]
    case Quoted(v) => [Word(v)]
    case Op(op) => [Operator(op)]
    case ErrToOut => [IONumber("2"), Operator(">&"), Word("1")]
  }

  /** strings.Join with a blank. */
  function Join(parts: seq<string>): string {
    if parts == [] then [] else if |parts| == 1 then parts[0] else parts[0] + (" " + Join(parts[1..]))
  }

  function Texts(items: seq<Item>): (r: seq<string>)
    ensures |r| == |items| && forall k | 0 <= k < |items| :: r[k] == Text(items[k])
  {
    seq(|items|, k requires 0 <= k < |items| => Text(items[k]))
  }

  function Print(items: seq<Item>): string {
    Join(Texts(items))
  }

  function AllTokens(items: seq<Item>): seq<Token> {
    if items == [] then [] else TokensOf(items[0]) + AllTokens(items[1..])
  }

  /** The end of the line or a blank. */
  predicate AtBreak(rest: string) {
    rest == [] || rest[0] == ' '
  }

  lemma PlainStep(c: char, rest: string, p: Pending)
    requires IsPlain(c)
    ensures Lex([c] + rest, Unquoted, p) == Lex(rest, Unquoted, Extend(p, [c], true))
  {
    assert ([c] + rest)[1..] == rest;
  }

  lemma {:induction false} PlainReadsBack(w: string, rest: string, p: Pending)
    requires w != [] && forall k | 0 <= k < |w| :: IsPlain(w[k])
    ensures Lex(w + rest, Unquoted, p) == Lex(rest, Unquoted, Extend(p, w, true))
  {
    hide Lex, IsPlain;
    var tail := w[1..];
    assert w + rest == [w[0]] + (tail + rest) && w == [w[0]] + tail;
    PlainStep(w[0], tail + rest, p);
    if tail == [] {
      assert tail + rest == rest && [w[0]] == w;
    } else {
      PlainReadsBack(tail, rest, Extend(p, [w[0]], true));
      if p.Part? { assert p.text + [w[0]] + tail == p.text + w; }
    }
  }

  lemma WordEnds(rest: string, p: Pending)
    requires AtBreak(rest)
    ensures Lex(rest, Unquoted, p) == Prepend(Flush(p), Lex(rest, Unquoted, NoWord))
  {
    if rest != [] {
      var l := Lex(rest[1..], Unquoted, NoWord);
      if l.Tokens? { assert [] + l.tokens == l.tokens; }
    }
  }

  lemma OperatorReadsBack(op: string, rest: string)
    requires op in {"&&", ">>", "<", "&"} && AtBreak(rest)
    ensures Lex(op + rest, Unquoted, NoWord) == Prepend([Operator(op)], Lex(rest, Unquoted, NoWord))
  {
    var s := op + rest;
    assert s[|op|..] == rest;
    assert s[..|op|] == op;
    assert |op| == 1 && rest != [] ==> s[1] == ' ';
    assert [] + [Operator(op)] == [Operator(op)];
  }

  lemma ErrToOutReadsBack(rest: string)
    requires AtBreak(rest)
    ensures Lex("2>&1" + rest, Unquoted, NoWord) ==
      Prepend([IONumber("2"), Operator(">&"), Word("1")], Lex(rest, Unquoted, NoWord))
  {
    var s := "2>&1" + rest;
    var p := Part("2", true);
    var t := s[1..];
    assert t == ">&1" + rest && t[..2] == ">&" && t[2..] == "1" + rest;
    assert OperatorLength(t) == 2;
    assert Lex(s, Unquoted, NoWord) == Lex(t, Unquoted, p);
    PlainReadsBack("1", rest, NoWord);
    WordEnds(rest, Part("1", true));
    var l := Lex(rest, Unquoted, NoWord);
    if l.Tokens? { assert [IONumber("2")] + [Operator(">&")] + ([Word("1")] + l.tokens) ==
      [IONumber("2"), Operator(">&"), Word("1")] + l.tokens; }
  }

  lemma ItemReadsBack(i: Item, rest: string)
    requires WellFormed(i) && AtBreak(rest)
    ensures Lex(Text(i) + rest, Unquoted, NoWord) == Prepend(TokensOf(i), Lex(rest, Unquoted, NoWord))
  {
    match i
    case Plain(w) =>
      PlainReadsBack(w, rest, NoWord);
      WordEnds(rest, Part(w, true));
    case Quoted(v) =>
      QuoteReadsBack(v, rest);
      WordEnds(rest, Part(v, false));
    case Op(op) => OperatorReadsBack(op, rest);
    case ErrToOut => ErrToOutReadsBack(rest);
  }

  lemma BlankSkipped(rest: string)
    ensures Lex(" " + rest, Unquoted, NoWord) == Lex(rest, Unquoted, NoWord)
  {
    assert (" " + rest)[1..] == rest;
    var l := Lex(rest, Unquoted, NoWord);
    if l.Tokens? { assert [] + l.tokens == l.tokens; }
  }

  ghost predicate AllWellFormed(items: seq<Item>) {
    forall k | 0 <= k < |items| :: WellFormed(items[k])
  }

  /** Every printed command line is recognised as the tokens it was printed from. */
  lemma {:induction false} PrintReadsBack(items: seq<Item>)
    requires AllWellFormed(items)
    ensures Lex(Print(items), Unquoted, NoWord) == Tokens(AllTokens(items))
  {
    if items == [] {
    } else if |items| == 1 {
      ItemReadsBack(items[0], []);
      assert Text(items[0]) + [] == Print(items);
      assert AllTokens(items) == TokensOf(items[0]) + AllTokens(items[1..]);
      assert AllTokens(items[1..]) == [];
    } else {
      var tail := Print(items[1..]);
      assert Texts(items)[1..] == Texts(items[1..]);
      ItemReadsBack(items[0], " " + tail);
      BlankSkipped(tail);
      PrintReadsBack(items[1..]);
    }
  }

  lemma {:induction false} TokensOfParts(xs: seq<Item>, ys: seq<Item>)
    ensures AllTokens(xs + ys) == AllTokens(xs) + AllTokens(ys)
  {
    hide TokensOf;
    if xs == [] {
      assert xs + ys == ys;
    } else {
      TokensOfParts(xs[1..], ys);
      assert (xs + ys)[1..] == xs[1..] + ys;
      Associative(TokensOf(xs[0]), AllTokens(xs[1..]), AllTokens(ys));
    }
  }

  lemma Associative<T>(a: seq<T>, b: seq<T>, c: seq<T>)
    ensures (a + b) + c == a + (b + c)
  {
  }

  predicate IsWord(i: Item) {
    i.Plain? || i.Quoted?
  }

  function WordOf(i: Item): string
    requires IsWord(i)
  {
    if i.Plain? then i.word else i.value
  }

  lemma {:induction false} TokensOfWords(items: seq<Item>)
    requires forall k | 0 <= k < |items| :: IsWord(items[k])
    ensures |AllTokens(items)| == |items| && forall k | 0 <= k < |items| ::
      AllTokens(items)[k] == Word(WordOf(items[k]))
  {
    if items != [] { TokensOfWords(items[1..]); }
  }

  lemma TokensOfOne(i: Item)
    ensures AllTokens([i]) == TokensOf(i)
  {
    assert [i][1..] == [];
  }

  lemma TokensOfTwo(i: Item, j: Item)
    ensures AllTokens([i, j]) == TokensOf(i) + TokensOf(j)
  {
    TokensOfOne(j);
    assert [i, j][1..] == [j];
  }

  // ---- the three commands ----

  /** The launcher line built in runDetachedShell. */
  function Launcher(command: string, logPath: string): string {
    Join(["nohup", "sh", "-lc", Quote(command), ">>", Quote(logPath), "2>&1", "<", "/dev/null", "&"])
  }

  /** dockerUpdaterCommand, given the cleaned directories, the container name and the image. */
  function UpdaterCommand(name: string, composeDir: string, hostLogDir: string, logDir: string, image: string,
        script: string): string {
    Join(["docker", "run", "-d", "--rm", "--name", Quote(name),
          "-v", "/var/run/docker.sock:/var/run/docker.sock", "-v", Quote(composeDir + ":" + composeDir + ":ro"),
          "-v", Quote(hostLogDir + ":" + logDir), "-w", Quote(composeDir), Quote(image), "sh", "-lc", Quote(script)])
  }

  /** The script the updater container runs. */
  function UpdateScript(service: string, logPath: string): string {
    Join(["docker", "compose", "pull", Quote(service), ">>", Quote(logPath), "2>&1", "&&",
          "docker", "compose", "up", "-d", "--remove-orphans", Quote(service), ">>", Quote(logPath), "2>&1"])
  }

  const ERR_TO_OUT := [IONumber("2"), Operator(">&"), Word("1")]

  function LauncherItems(command: string, logPath: string): seq<Item> {
    [Plain("nohup"), Plain("sh"), Plain("-lc"), Quoted(command)] +
    ([Op(">>"), Quoted(logPath)] + ([ErrToOut] + [Op("<"), Plain("/dev/null"), Op("&")]))
  }

  lemma LauncherIsPrinted(command: string, logPath: string)
    ensures Print(LauncherItems(command, logPath)) == Launcher(command, logPath) &&
      AllWellFormed(LauncherItems(command, logPath))
  {
    hide Quote, Join;
    assert Texts(LauncherItems(command, logPath)) ==
      ["nohup", "sh", "-lc", Quote(command), ">>", Quote(logPath), "2>&1", "<", "/dev/null", "&"];
  }

  lemma DetachTokens()
    ensures AllTokens([Op("<"), Plain("/dev/null"), Op("&")]) == [Operator("<"), Word("/dev/null"), Operator("&")]
  {
    TokensOfTwo(Op("<"), Plain("/dev/null"));
    TokensOfOne(Op("&"));
    TokensOfParts([Op("<"), Plain("/dev/null")], [Op("&")]);
    assert [Op("<"), Plain("/dev/null")] + [Op("&")] == [Op("<"), Plain("/dev/null"), Op("&")];
  }

  /** The launcher runs one shell on the command, unchanged, and redirects to the log path, unchanged. */
  lemma LauncherReadsBack(command: string, logPath: string)
    ensures Lex(Launcher(command, logPath), Unquoted, NoWord) == Tokens(
      [Word("nohup"), Word("sh"), Word("-lc"), Word(command)] + ([Operator(">>"), Word(logPath)] +
      (ERR_TO_OUT + [Operator("<"), Word("/dev/null"), Operator("&")])))
  {
    hide Lex, AllTokens, Launcher, Print;
    LauncherIsPrinted(command, logPath);
    PrintReadsBack(LauncherItems(command, logPath));
    var run, log := [Plain("nohup"), Plain("sh"), Plain("-lc"), Quoted(command)], [Op(">>"), Quoted(logPath)];
    var detach := [Op("<"), Plain("/dev/null"), Op("&")];
    TokensOfParts(run, log + ([ErrToOut] + detach));
    TokensOfParts(log, [ErrToOut] + detach);
    TokensOfParts([ErrToOut], detach);
    TokensOfWords(run);
    assert AllTokens(run) == [Word("nohup"), Word("sh"), Word("-lc"), Word(command)];
    TokensOfTwo(log[0], log[1]);
    assert AllTokens(log) == [Operator(">>"), Word(logPath)];
    TokensOfOne(ErrToOut);
    DetachTokens();
  }

  function UpdaterItems(name: string, composeDir: string, hostLogDir: string, logDir: string, image: string,
        script: string): seq<Item> {
    [Plain("docker"), Plain("run"), Plain("-d"), Plain("--rm"), Plain("--name"), Quoted(name),
     Plain("-v"), Plain("/var/run/docker.sock:/var/run/docker.sock"), Plain("-v"),
       Quoted(composeDir + ":" + composeDir + ":ro"),
     Plain("-v"), Quoted(hostLogDir + ":" + logDir), Plain("-w"), Quoted(composeDir), Quoted(image), Plain("sh"),
       Plain("-lc"), Quoted(script)]
  }

  lemma UpdaterWordsAreWellFormed()
    ensures WellFormed(Plain("docker")) && WellFormed(Plain("run")) && WellFormed(Plain("-d")) &&
      WellFormed(Plain("--rm"))
    ensures WellFormed(Plain("--name")) && WellFormed(Plain("-v")) && WellFormed(Plain("-w")) && WellFormed(Plain("sh"))
    ensures WellFormed(Plain("-lc"))
  {
  }

  lemma SocketIsWellFormed()
    ensures WellFormed(Plain("/var/run/docker.sock:/var/run/docker.sock"))
  {
  }

  lemma UpdaterIsWellFormed(name: string, composeDir: string, hostLogDir: string, logDir: string, image: string,
        script: string)
    ensures AllWellFormed(UpdaterItems(name, composeDir, hostLogDir, logDir, image, script))
  {
    hide IsPlain;
    UpdaterWordsAreWellFormed();
    SocketIsWellFormed();
  }

  lemma UpdaterIsPrinted(name: string, composeDir: string, hostLogDir: string, logDir: string, image: string,
        script: string)
    ensures Print(UpdaterItems(name, composeDir, hostLogDir, logDir, image, script)) ==
      UpdaterCommand(name, composeDir, hostLogDir, logDir, image, script)
  {
    hide Quote, Join;
    assert Texts(UpdaterItems(name, composeDir, hostLogDir, logDir, image, script)) ==
      ["docker", "run", "-d", "--rm", "--name", Quote(name),
       "-v", "/var/run/docker.sock:/var/run/docker.sock", "-v", Quote(composeDir + ":" + composeDir + ":ro"),
       "-v", Quote(hostLogDir + ":" + logDir), "-w", Quote(composeDir), Quote(image), "sh", "-lc", Quote(script)];
  }

  /** The updater command is exactly the intended docker argument list; its last word is the script. */
  lemma UpdaterReadsBack(name: string, composeDir: string, hostLogDir: string, logDir: string, image: string,
        script: string)
    ensures Lex(UpdaterCommand(name, composeDir, hostLogDir, logDir, image, script), Unquoted, NoWord) == Tokens([
      Word("docker"), Word("run"), Word("-d"), Word("--rm"), Word("--name"), Word(name),
      Word("-v"), Word("/var/run/docker.sock:/var/run/docker.sock"), Word("-v"),
        Word(composeDir + ":" + composeDir + ":ro"),
      Word("-v"), Word(hostLogDir + ":" + logDir), Word("-w"), Word(composeDir), Word(image), Word("sh"), Word("-lc"),
        Word(script)])
  {
    hide Lex, AllTokens, UpdaterCommand, Print;
    UpdaterIsPrinted(name, composeDir, hostLogDir, logDir, image, script);
    UpdaterIsWellFormed(name, composeDir, hostLogDir, logDir, image, script);
    PrintReadsBack(UpdaterItems(name, composeDir, hostLogDir, logDir, image, script));
    TokensOfWords(UpdaterItems(name, composeDir, hostLogDir, logDir, image, script));
  }

  function UpItems(service: string): seq<Item> {
    [Plain("docker"), Plain("compose"), Plain("up"), Plain("-d"), Plain("--remove-orphans"), Quoted(service)]
  }

  function LogItems(logPath: string): seq<Item> {
    [Op(">>"), Quoted(logPath)] + [ErrToOut]
  }

  function ScriptItems(service: string, logPath: string): seq<Item> {
    [Plain("docker"), Plain("compose"), Plain("pull"), Quoted(service)] +
      (LogItems(logPath) + ([Op("&&")] + (UpItems(service) + LogItems(logPath))))
  }

  lemma ScriptIsPrinted(service: string, logPath: string)
    ensures Print(ScriptItems(service, logPath)) == UpdateScript(service, logPath)
  {
    hide Quote, Join;
    assert Texts(ScriptItems(service, logPath)) ==
      ["docker", "compose", "pull", Quote(service), ">>", Quote(logPath), "2>&1", "&&",
      "docker", "compose", "up", "-d", "--remove-orphans", Quote(service), ">>", Quote(logPath), "2>&1"];
  }

  lemma ScriptWordsAreWellFormed()
    ensures WellFormed(Plain("docker")) && WellFormed(Plain("compose")) && WellFormed(Plain("pull"))
    ensures WellFormed(Plain("up")) && WellFormed(Plain("-d")) && WellFormed(Plain("--remove-orphans"))
  {
  }

  lemma ScriptIsWellFormed(service: string, logPath: string)
    ensures AllWellFormed(ScriptItems(service, logPath))
  {
    hide IsPlain;
    ScriptWordsAreWellFormed();
  }

  lemma LogTokens(logPath: string)
    ensures AllTokens(LogItems(logPath)) == [Operator(">>"), Word(logPath)] + ERR_TO_OUT
  {
    TokensOfParts([Op(">>"), Quoted(logPath)], [ErrToOut]);
    TokensOfTwo(Op(">>"), Quoted(logPath));
    TokensOfOne(ErrToOut);
  }

  /** The script pulls and restarts the named service, logging to the log path, both unchanged. */
  lemma ScriptReadsBack(service: string, logPath: string)
    ensures var log := [Operator(">>"), Word(logPath)] + ERR_TO_OUT;
      Lex(UpdateScript(service, logPath), Unquoted, NoWord) == Tokens(
        [Word("docker"), Word("compose"), Word("pull"), Word(service)] + (log + ([Operator("&&")] +
        ([Word("docker"), Word("compose"), Word("up"), Word("-d"), Word("--remove-orphans"), Word(service)] + log))))
  {
    hide Lex, AllTokens, UpdateScript, Print, LogItems;
    ScriptIsPrinted(service, logPath);
    ScriptIsWellFormed(service, logPath);
    PrintReadsBack(ScriptItems(service, logPath));
    var pull, up, log := [Plain("docker"), Plain("compose"), Plain("pull"), Quoted(service)], UpItems(service),
      LogItems(logPath);
    TokensOfParts(pull, log + ([Op("&&")] + (up + log)));
    TokensOfParts(log, [Op("&&")] + (up + log));
    TokensOfParts([Op("&&")], up + log);
    TokensOfParts(up, log);
    LogTokens(logPath);
    TokensOfOne(Op("&&"));
    TokensOfWords(pull);
    assert AllTokens(pull) == [Word("docker"), Word("compose"), Word("pull"), Word(service)];
    TokensOfWords(up);
    assert AllTokens(up) == [Word("docker"), Word("compose"), Word("up"), Word("-d"), Word("--remove-orphans"),
      Word(service)];
  }

  /** The word at position k of a recognised line. */
  function WordAt(l: Lexed, k: nat): string {
    if l.Tokens? && k < |l.tokens| && l.tokens[k].Word? then l.tokens[k].text else []
  }

  /**
   * All three layers: the launcher hands over the command, the command the script, the script the service and the log
   * path.
   */
  lemma NestedQuotingReadsBack(name: string, composeDir: string, hostLogDir: string, logDir: string, image: string,
        service: string, logPath: string)
    ensures var command := UpdaterCommand(name, composeDir, hostLogDir, logDir, image, UpdateScript(service, logPath));
      var launched := Lex(Launcher(command, logPath), Unquoted, NoWord);
      var argv := Lex(WordAt(launched, 3), Unquoted, NoWord);
      var script := Lex(WordAt(argv, 17), Unquoted, NoWord);
      WordAt(launched, 5) == WordAt(script, 5) == WordAt(script, 17) == logPath &&
        WordAt(script, 3) == WordAt(script, 15) == service &&
      argv.Tokens? && |argv.tokens| == 18 && WordAt(argv, 5) == name && WordAt(argv, 13) == composeDir &&
        WordAt(argv, 14) == image
  {
    hide Lex, Quote, UpdateScript, Launcher, UpdaterCommand;
    LauncherReadsBack(UpdaterCommand(name, composeDir, hostLogDir, logDir, image, UpdateScript(service, logPath)),
      logPath);
    UpdaterReadsBack(name, composeDir, hostLogDir, logDir, image, UpdateScript(service, logPath));
    ScriptReadsBack(service, logPath);
  }
}
