/**
 * The commands of ftplib.c as texts, and the lines that a server sees in them: a caller's string
 * may hold line ends of its own.
 */
module Commands {
  import opened Wrappers
  import opened Bytes
  import opened HostPort
  import opened Requests

  const TMP_BUFSIZ: nat := 1024
  const LOGIN_BUFSIZ: nat := 64

  /** What a C string can hold. */
  type CText = s: seq<byte> | NUL !in s

  datatype OpenType = Dir | DirVerbose | FileRead | FileWrite | OtherType

  predicate Printable(s: string) {
    forall c | c in s :: ' ' <= c <= '~'
  }

  function Ascii(s: string): (r: seq<byte>)
    ensures |r| == |s|
  {
    seq(|s|, i requires 0 <= i < |s| => (s[i] as int) % 256)
  }

  lemma AsciiIsPlain(s: string)
    requires Printable(s)
    ensures NUL !in Ascii(s) && CR !in Ascii(s) && LF !in Ascii(s)
  {
    assert forall i | 0 <= i < |s| :: s[i] in s;
  }

  /** sprintf("VERB %s", arg) */
  function Command(verb: string, arg: CText): (r: CText)
    requires Printable(verb)
    ensures |r| == |verb| + |arg|
  {
    AsciiIsPlain(verb);
    Ascii(verb) + arg
  }

  /** sprintf("TYPE %c", mode); a NUL ends the string. */
  function TypeCommand(mode: byte): (r: CText) {
    Command("TYPE ", if mode == NUL then [] else [mode])
  }

  function UserCommand(user: CText): (r: CText)
    ensures |r| == 5 + |user|
  {
    Command("USER ", user)
  }

  function PassCommand(pass: CText): (r: CText)
    ensures |r| == 5 + |pass|
  {
    Command("PASS ", pass)
  }

  function FromCommand(src: CText): (r: CText)
    ensures |r| == 5 + |src|
  {
    Command("RNFR ", src)
  }

  function ToCommand(dst: CText): (r: CText)
    ensures |r| == 5 + |dst|
  {
    Command("RNTO ", dst)
  }

  function PassiveCommand(): (r: CText) {
    Command("PASV", [])
  }

  function Verb(typ: OpenType): (r: string)
    ensures Printable(r) && |r| <= 4
  {
    match typ
    case Dir => "NLST"
    case DirVerbose => "LIST"
    case FileRead => "RETR"
    case FileWrite => "STOR"
    case OtherType => ""
  }

  /** The command that starts a transfer. */
  function TransferCommand(path: Option<CText>, typ: OpenType): (r: CText) {
    if path.Some? then Command(Verb(typ) + " ", path.value) else Command(Verb(typ), [])
  }

  predicate MissingPath(path: Option<CText>, typ: OpenType) {
    path.None? && (typ == FileWrite || typ == FileRead)
  }

  predicate IsMode(mode: byte) {
    mode == 65 || mode == 73  // 'A' or 'I'
  }

  // ---------- what the server reads ----------

  /** A verb of four capitals, and a string of the caller's behind it. */
  lemma CommandReads(verb: string, code: seq<byte>, arg: CText)
    requires |verb| == 4 && (forall c | c in verb :: 'A' <= c <= 'Z') && code == Ascii(verb)
    ensures Printable(verb + " ") && Printable(verb)
    ensures Code(Command(verb + " ", arg)) == code && Argument(Command(verb + " ", arg)) == Octets(Some(arg))
    ensures Code(Command(verb, [])) == code && Argument(Command(verb, [])) == None
  {
    assert forall b | b in code :: exists i :: 0 <= i < 4 && b == (verb[i] as int) % 256 && verb[i] in verb;
    assert Ascii(verb + " ") == code + [SPACE];
    assert Command(verb, []) == code;
    ReadsCode(code, arg);
  }

  lemma LoginReads(user: CText, pass: CText)
    ensures ReadRequest(UserCommand(user)) == User(user) && ReadRequest(PassCommand(pass)) == Password(pass)
  {
    CommandReads("USER", [85, 83, 69, 82], user);
    CommandReads("PASS", [80, 65, 83, 83], pass);
    assert "USER" + " " == "USER " && "PASS" + " " == "PASS ";
  }

  lemma RenameReads(src: CText, dst: CText)
    ensures ReadRequest(FromCommand(src)) == RenameFrom(src) && ReadRequest(ToCommand(dst)) == RenameTo(dst)
  {
    CommandReads("RNFR", [82, 78, 70, 82], src);
    CommandReads("RNTO", [82, 78, 84, 79], dst);
    assert "RNFR" + " " == "RNFR " && "RNTO" + " " == "RNTO ";
  }

  /** The mode octet is the representation: A for text, I for image. */
  lemma TypeReads(mode: byte)
    ensures ReadRequest(TypeCommand(mode)).TypeIs?
    ensures ReadRequest(TypeCommand(mode)) == TypeIs(Text) <==> mode == 65
    ensures ReadRequest(TypeCommand(mode)) == TypeIs(Image) <==> mode == 73
  {
    CommandReads("TYPE", [84, 89, 80, 69], if mode == NUL then [] else [mode]);
    assert "TYPE" + " " == "TYPE ";
  }

  lemma PassiveReads()
    ensures ReadRequest(PassiveCommand()) == EnterPassive
  {
    CommandReads("PASV", [80, 65, 83, 86], []);
  }

  /** The server is told the listening socket: its address, and its port in network order. */
  lemma PortReads(address: Address)
    ensures var (high: int, low: int) := (address[0], address[1]);
      ReadRequest(PortCommand(address)) == DataPort(address[2..], 256 * high + low)
  {
    var values := [address[2], address[3], address[4], address[5], address[0], address[1]];
    JoinedIsPlain(values);
    CommandReads("PORT", [80, 79, 82, 84], HostPortText(address));
    assert "PORT" + " " == "PORT ";
    ReadsPort(values);
    assert values[..4] == address[2..];
  }

  lemma ReadsPort(values: seq<byte>)
    requires |values| == 6
    ensures var (high: int, low: int) := (values[4], values[5]);
      ReadPort(Joined(values)) == Some(DataPort(values[..4], 256 * high + low))
  {
    NumbersOfJoined(values, []);
    NothingBehind(Joined(values));
  }

  function Octets(path: Option<CText>): (r: Option<seq<byte>>) {
    match path case None => None case Some(text) => Some(text)
  }

  /** To read is to retrieve, to write is to store; the two kinds of listing have a path or none. */
  lemma TransferReads(path: Option<CText>, typ: OpenType)
    ensures typ == FileRead && path.Some? ==> ReadRequest(TransferCommand(path, typ)) == Retrieve(path.value)
    ensures typ == FileWrite && path.Some? ==> ReadRequest(TransferCommand(path, typ)) == Store(path.value)
    ensures typ == Dir ==> ReadRequest(TransferCommand(path, typ)) == NameList(Octets(path))
    ensures typ == DirVerbose ==> ReadRequest(TransferCommand(path, typ)) == List(Octets(path))
  {
    match typ
    case FileRead => RetrieveReads(path);
    case FileWrite => StoreReads(path);
    case Dir => NameListReads(path);
    case DirVerbose => ListReads(path);
    case OtherType =>
  }

  function Argued(path: Option<CText>): (arg: CText) {
    if path.Some? then path.value else []
  }

  lemma RetrieveReads(path: Option<CText>)
    ensures path.Some? ==> ReadRequest(TransferCommand(path, FileRead)) == Retrieve(path.value)
  {
    CommandReads("RETR", [82, 69, 84, 82], Argued(path));
  }

  lemma NameListReads(path: Option<CText>)
    ensures ReadRequest(TransferCommand(path, Dir)) == NameList(Octets(path))
  {
    CommandReads("NLST", [78, 76, 83, 84], Argued(path));
  }

  lemma ListReads(path: Option<CText>)
    ensures ReadRequest(TransferCommand(path, DirVerbose)) == List(Octets(path))
  {
    CommandReads("LIST", [76, 73, 83, 84], Argued(path));
  }

  lemma StoreReads(path: Option<CText>)
    ensures path.Some? ==> ReadRequest(TransferCommand(path, FileWrite)) == Store(path.value)
  {
    CommandReads("STOR", [83, 84, 79, 82], Argued(path));
  }

  // ---------- lengths ----------

  predicate CommandAccepted(cmd: CText) {
    |cmd| + 3 <= TMP_BUFSIZ
  }

  /** What FtpSendCmd sends for this command. */
  function IfAccepted(cmd: CText): (r: seq<CText>) {
    if CommandAccepted(cmd) then [cmd] else []
  }

  /** The guard of FtpAccess on the length of the path. */
  predicate PathAccepted(path: Option<CText>) {
    path.Some? ==> |path.value| + 5 + 1 < TMP_BUFSIZ
  }

  /** The one length that FtpAccess lets through and FtpSendCmd does not send. */
  predicate TooLong(path: Option<CText>) {
    path.Some? && |path.value| == TMP_BUFSIZ - 7
  }

  /** FtpAccess accepts a path whose command FtpSendCmd refuses exactly when it has 1017 octets. */
  lemma PathGuardsDisagree(path: Option<CText>, typ: OpenType)
    requires typ != OtherType
    ensures PathAccepted(path) && !CommandAccepted(TransferCommand(path, typ)) <==> TooLong(path)
    ensures path.Some? ==> (TooLong(path) <==> |path.value| == 1017)
  {
  }

  predicate LoginFits(user: CText, pass: CText) {
    |user| + 7 <= LOGIN_BUFSIZ && |pass| + 7 <= LOGIN_BUFSIZ
  }

  predicate RenameFits(src: CText, dst: CText) {
    |src| + 7 <= TMP_BUFSIZ && |dst| + 7 <= TMP_BUFSIZ
  }

  // ---------- lines ----------

  /** An LF at position i ends a line: after CR, or anywhere for a server that takes a lone LF, too. */
  predicate EndsAt(s: seq<byte>, i: nat, loneLF: bool)
    requires i < |s|
  {
    s[i] == LF && (loneLF || (i > 0 && s[i - 1] == CR))
  }

  function LineEnds(s: seq<byte>, loneLF: bool): (n: nat) {
    if s == [] then 0
    else LineEnds(s[..|s| - 1], loneLF) + if EndsAt(s, |s| - 1, loneLF) then 1 else 0
  }

  /** A caller can tell by looking for CR LF in the string, or for LF. */
  lemma {:induction false} NoLineEndsIff(s: seq<byte>, loneLF: bool)
    ensures LineEnds(s, loneLF) == 0 <==> forall i | 0 <= i < |s| :: !EndsAt(s, i, loneLF)
  {
    if s != [] {
      var front := s[..|s| - 1];
      NoLineEndsIff(front, loneLF);
      assert forall i | 0 <= i < |front| :: EndsAt(front, i, loneLF) <==> EndsAt(s, i, loneLF);
    }
  }

  lemma PlainHasNoLineEnds(s: seq<byte>, loneLF: bool)
    requires LF !in s
    ensures LineEnds(s, loneLF) == 0
  {
    NoLineEndsIff(s, loneLF);
  }

  /** Line ends add up unless a CR LF pair is cut in two. */
  lemma {:induction false} LineEndsAdd(a: seq<byte>, b: seq<byte>, loneLF: bool)
    requires a == [] || a[|a| - 1] != CR
    ensures LineEnds(a + b, loneLF) == LineEnds(a, loneLF) + LineEnds(b, loneLF)
  {
    if b == [] {
      assert a + b == a;
    } else {
      var front := b[..|b| - 1];
      LineEndsAdd(a, front, loneLF);
      assert (a + b)[..|a + b| - 1] == a + front;
      assert EndsAt(a + b, |a + b| - 1, loneLF) <==> EndsAt(b, |b| - 1, loneLF);
    }
  }

  /** The line end that FtpSendCmd appends is one more. */
  lemma LineEndsOfLine(cmd: seq<byte>, loneLF: bool)
    ensures LineEnds(cmd + [CR, LF], loneLF) == LineEnds(cmd, loneLF) + 1
  {
    var line := cmd + [CR, LF];
    assert line[..|line| - 1] == cmd + [CR] && (cmd + [CR])[..|cmd|] == cmd;
  }

  /** The line ends of a command are those of the caller's string in it. */
  lemma LineEndsOfCommand(verb: string, arg: CText, loneLF: bool)
    requires Printable(verb)
    ensures LineEnds(Command(verb, arg), loneLF) == LineEnds(arg, loneLF)
  {
    AsciiIsPlain(verb);
    assert verb != [] ==> Ascii(verb)[|verb| - 1] in Ascii(verb);
    PlainHasNoLineEnds(Ascii(verb), loneLF);
    LineEndsAdd(Ascii(verb), arg, loneLF);
  }

  lemma LineEndsOfArguments(arg: CText, loneLF: bool)
    ensures LineEnds(UserCommand(arg), loneLF) == LineEnds(arg, loneLF) == LineEnds(PassCommand(arg), loneLF)
    ensures LineEnds(FromCommand(arg), loneLF) == LineEnds(arg, loneLF) == LineEnds(ToCommand(arg), loneLF)
    ensures LineEnds(PassiveCommand(), loneLF) == 0
  {
    LineEndsOfCommand("USER ", arg, loneLF);
    LineEndsOfCommand("PASS ", arg, loneLF);
    LineEndsOfCommand("RNFR ", arg, loneLF);
    LineEndsOfCommand("RNTO ", arg, loneLF);
    LineEndsOfCommand("PASV", [], loneLF);
  }

  lemma LineEndsOfPath(path: Option<CText>, typ: OpenType, loneLF: bool)
    ensures LineEnds(TransferCommand(path, typ), loneLF) == if path.Some? then LineEnds(path.value, loneLF) else 0
  {
    LineEndsOfCommand(Verb(typ) + " ", if path.Some? then path.value else [], loneLF);
    LineEndsOfCommand(Verb(typ), [], loneLF);
  }

  /** Of all octets only LF makes the mode one that breaks the line, and only for some servers. */
  lemma LineEndsOfType(mode: byte, loneLF: bool)
    ensures LineEnds(TypeCommand(mode), loneLF) == if loneLF && mode == LF then 1 else 0
  {
    var arg := if mode == NUL then [] else [mode];
    LineEndsOfCommand("TYPE ", arg, loneLF);
    assert arg != [] ==> arg[..|arg| - 1] == [];
  }

  /** The octets of these commands on the control connection. */
  function Spoken(commands: seq<CText>): (r: seq<byte>) {
    if commands == [] then [] else Spoken(commands[..|commands| - 1]) + (commands[|commands| - 1] + [CR, LF])
  }

  /** One more command on the wire, and the lines that it adds. */
  lemma SpokenAppend(commands: seq<CText>, cmd: CText, loneLF: bool, sent: seq<byte>, sent': seq<byte>)
    requires sent == Spoken(commands) && sent' == sent + (cmd + [CR, LF])
    ensures sent' == Spoken(commands + [cmd])
    ensures LineEnds(sent', loneLF) == LineEnds(sent, loneLF) + LineEnds(cmd, loneLF) + 1
  {
    assert (commands + [cmd])[..|commands|] == commands;
    assert sent != [] ==> sent[|sent| - 1] == LF;
    LineEndsAdd(sent, cmd + [CR, LF], loneLF);
    LineEndsOfLine(cmd, loneLF);
  }

  /** A command with a line end in it cannot be told from two commands. */
  lemma OneOrTwoCommands(a: CText, b: CText)
    ensures Spoken([a + [CR, LF] + b]) == Spoken([a, b])
  {
    var both := a + [CR, LF] + b;
    var two: seq<CText> := [a, b];
    assert two[..1] == [a];
    assert both + [CR, LF] == (a + [CR, LF]) + (b + [CR, LF]);
  }

  /** A string without line ends is one line, whatever has come before it of that line. */
  lemma {:induction false} UnbrokenIsOneLine(s: seq<byte>, i: nat, loneLF: bool)
    requires i <= |s| && LineEnds(s, loneLF) == 0
    ensures OneLine(s[..i], s[i..], loneLF)
    decreases |s| - i
  {
    NoLineEndsIff(s, loneLF);
    if i < |s| {
      assert !EndsAt(s, i, loneLF);
      assert s[i..][1..] == s[i + 1..] && s[..i] + [s[i]] == s[..i + 1];
      UnbrokenIsOneLine(s, i + 1, loneLF);
    }
  }

  /** What the server hears of a command that no string of the caller's breaks. */
  lemma CommandIsHeard(cmd: CText, loneLF: bool)
    requires LineEnds(cmd, loneLF) == 0
    ensures Heard(cmd + [CR, LF], loneLF) == [ReadRequest(cmd)]
  {
    UnbrokenIsOneLine(cmd, 0, loneLF);
    assert cmd[..0] == [] && cmd[0..] == cmd && [] + cmd == cmd;
    OneLineIsHeard([], cmd, loneLF);
  }

  lemma SpokenEndsLine(commands: seq<CText>, loneLF: bool)
    ensures Unfinished([], Spoken(commands), loneLF) == []
  {
    if commands != [] {
      var (front, cmd) := (Spoken(commands[..|commands| - 1]), commands[|commands| - 1]);
      assert front + (cmd + [CR, LF]) == (front + cmd) + [CR, LF];
      CRLFEndsLine([], front + cmd, loneLF);
    }
  }

  /** What the server hears of commands that go out one after the other. */
  lemma {:induction false} CommandsAreHeard(before: seq<CText>, said: seq<CText>, loneLF: bool)
    requires forall cmd | cmd in said :: LineEnds(cmd, loneLF) == 0
    ensures Heard(Spoken(before + said), loneLF) == Heard(Spoken(before), loneLF) + ReadAll(said)
    decreases |said|
  {
    if said == [] {
      assert before + said == before;
    } else {
      var (front, cmd) := (said[..|said| - 1], said[|said| - 1]);
      assert (before + said)[..|before + said| - 1] == before + front;
      CommandsAreHeard(before, front, loneLF);
      SpokenEndsLine(before + front, loneLF);
      HeardAppend(Spoken(before + front), cmd + [CR, LF], loneLF);
      CommandIsHeard(cmd, loneLF);
      assert ReadAll(said) == ReadAll(front) + [ReadRequest(cmd)];
    }
  }

  // ---------- the data port ----------

  lemma {:induction false} DecimalIsPlain(n: nat)
    ensures forall b | b in Decimal(n) :: IsDigit(b)
  {
    if n >= 10 {
      DecimalIsPlain(n / 10);
    }
  }

  lemma {:induction false} JoinedIsPlain(values: seq<byte>)
    ensures NUL !in Joined(values) && LF !in Joined(values)
  {
    if values != [] {
      DecimalIsPlain(values[0]);
      if |values| > 1 {
        JoinedIsPlain(values[1..]);
      }
    }
  }

  /** sprintf("PORT %d,%d,%d,%d,%d,%d") */
  function PortCommand(address: Address): (r: CText)
  {
    JoinedIsPlain([address[2], address[3], address[4], address[5], address[0], address[1]]);
    Command("PORT ", HostPortText(address))
  }

  lemma PortCommandFits(address: Address, loneLF: bool)
    ensures CommandAccepted(PortCommand(address)) && LineEnds(PortCommand(address), loneLF) == 0
  {
    var values := [address[2], address[3], address[4], address[5], address[0], address[1]];
    JoinedIsPlain(values);
    JoinedLength(values);
    LineEndsOfCommand("PORT ", HostPortText(address), loneLF);
    PlainHasNoLineEnds(HostPortText(address), loneLF);
  }
}
