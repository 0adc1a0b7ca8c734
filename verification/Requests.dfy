/**
 * The control connection as an FTP server hears it: the octets cut into lines, each line read as a
 * request (sections 4.1 and 5.3 of RFC 959), and what a request does to the server's files.
 */
module Requests {
  import opened Wrappers
  import opened Bytes
  import opened HostPort

  const SPACE: byte := 32

  // ---------- lines ----------

  function DropCR(line: seq<byte>): (r: seq<byte>) {
    if line != [] && line[|line| - 1] == CR then line[..|line| - 1] else line
  }

  /** LF ends the line that has come so far: behind a CR, or anywhere for a server that takes a lone LF. */
  predicate Closes(line: seq<byte>, b: byte, loneLF: bool) {
    b == LF && (loneLF || (line != [] && line[|line| - 1] == CR))
  }

  /** The lines of the stream s, when `line` has come of the first; an unfinished one is not a line yet. */
  function HeardLines(line: seq<byte>, s: seq<byte>, loneLF: bool): (r: seq<seq<byte>>)
    decreases |s|
  {
    if |s| == 0 then []
    else if Closes(line, s[0], loneLF) then [DropCR(line)] + HeardLines([], s[1..], loneLF)
    else HeardLines(line + [s[0]], s[1..], loneLF)
  }

  /** What has come of the line that s leaves unfinished. */
  function Unfinished(line: seq<byte>, s: seq<byte>, loneLF: bool): (r: seq<byte>)
    decreases |s|
  {
    if |s| == 0 then line
    else if Closes(line, s[0], loneLF) then Unfinished([], s[1..], loneLF)
    else Unfinished(line + [s[0]], s[1..], loneLF)
  }

  lemma {:induction false} LinesAppend(line: seq<byte>, a: seq<byte>, b: seq<byte>, loneLF: bool)
    ensures HeardLines(line, a + b, loneLF) ==
      HeardLines(line, a, loneLF) + HeardLines(Unfinished(line, a, loneLF), b, loneLF)
    ensures Unfinished(line, a + b, loneLF) == Unfinished(Unfinished(line, a, loneLF), b, loneLF)
    decreases |a|
  {
    if a == [] {
      assert a + b == b;
    } else {
      assert (a + b)[1..] == a[1..] + b;
      if Closes(line, a[0], loneLF) {
        LinesAppend([], a[1..], b, loneLF);
        ConcatAssociative([DropCR(line)], HeardLines([], a[1..], loneLF),
                          HeardLines(Unfinished([], a[1..], loneLF), b, loneLF));
      } else {
        LinesAppend(line + [a[0]], a[1..], b, loneLF);
      }
    }
  }

  /** No octet of s ends a line that starts with `line`. */
  predicate OneLine(line: seq<byte>, s: seq<byte>, loneLF: bool)
    decreases |s|
  {
    |s| == 0 || (!Closes(line, s[0], loneLF) && OneLine(line + [s[0]], s[1..], loneLF))
  }

  lemma CRLFIsALine(line: seq<byte>, loneLF: bool)
    ensures HeardLines(line, [CR, LF], loneLF) == [line] && Unfinished(line, [CR, LF], loneLF) == []
  {
    var s: seq<byte> := [CR, LF];
    assert s[0] == CR && s[1..] == [LF] && s[1..][1..] == [];
    assert !Closes(line, CR, loneLF) && Closes(line + [CR], LF, loneLF) && DropCR(line + [CR]) == line;
    assert HeardLines(line + [CR], [LF], loneLF) == [line] + HeardLines([], [], loneLF);
    assert Unfinished(line + [CR], [LF], loneLF) == Unfinished([], [], loneLF);
  }

  /** Such a text and CR LF are one line. */
  lemma {:induction false} OneLineIsHeard(line: seq<byte>, s: seq<byte>, loneLF: bool)
    requires OneLine(line, s, loneLF)
    ensures HeardLines(line, s + [CR, LF], loneLF) == [line + s] && Unfinished(line, s + [CR, LF], loneLF) == []
    decreases |s|
  {
    if |s| == 0 {
      CRLFIsALine(line, loneLF);
      assert s + [CR, LF] == [CR, LF] && line + s == line;
    } else {
      assert (s + [CR, LF])[1..] == s[1..] + [CR, LF];
      OneLineIsHeard(line + [s[0]], s[1..], loneLF);
      assert line + [s[0]] + s[1..] == line + s;
    }
  }

  // ---------- requests ----------

  /** The representation that a TYPE request asks for (section 5.3.2). */
  datatype Representation = Text | Image | OtherRepresentation(parameter: seq<byte>)

  datatype Request =
    | User(name: seq<byte>)
    | Password(text: seq<byte>)
    | TypeIs(representation: Representation)
    | EnterPassive
    | DataPort(host: seq<nat>, port: nat)
    | Retrieve(path: seq<byte>)
    | Store(path: seq<byte>)
    | List(of: Option<seq<byte>>)
    | NameList(of: Option<seq<byte>>)
    | RenameFrom(path: seq<byte>)
    | RenameTo(path: seq<byte>)
    | Unknown(line: seq<byte>)

  /** Number of octets before the first space. */
  function CodeLen(line: seq<byte>): (n: nat)
    ensures n <= |line|
  {
    if |line| == 0 || line[0] == SPACE then 0 else 1 + CodeLen(line[1..])
  }

  /** Upper and lower case are the same in a command code. */
  function Upper(b: byte): (r: byte) {
    if 97 <= b <= 122 then b - 32 else b
  }

  function Code(line: seq<byte>): (r: seq<byte>) {
    seq(CodeLen(line), i requires 0 <= i < CodeLen(line) => Upper(line[i]))
  }

  /** What follows the first space, if there is one. */
  function Argument(line: seq<byte>): (r: Option<seq<byte>>) {
    if CodeLen(line) < |line| then Some(line[CodeLen(line) + 1..]) else None
  }

  function ReadType(parameter: seq<byte>): (r: Representation) {
    if parameter == [65] then Text             // A
    else if parameter == [73] then Image       // I
    else OtherRepresentation(parameter)
  }

  /** h1,h2,h3,h4,p1,p2: the address and the two octets of the port, high order first. */
  function ReadPort(parameter: seq<byte>): (r: Option<Request>) {
    match Numbers(6, parameter)
    case NoMatch => None
    case Scanned(v, rest) => if rest == [] then Some(DataPort(v[..4], 256 * v[4] + v[5])) else None
  }

  /** A command code, octet by octet. */
  predicate Spells(code: seq<byte>, a: byte, b: byte, c: byte, d: byte) {
    |code| == 4 && code[0] == a && code[1] == b && code[2] == c && code[3] == d
  }

  /** A line as a request, by its octets. */
  function ReadRequest(line: seq<byte>): (r: Request) {
    var code := Code(line);
    match Argument(line)
    case None =>
      if Spells(code, 80, 65, 83, 86) then EnterPassive                       // PASV
      else if Spells(code, 76, 73, 83, 84) then List(None)               // LIST
      else if Spells(code, 78, 76, 83, 84) then NameList(None)           // NLST
      else Unknown(line)
    case Some(text) =>
      if Spells(code, 85, 83, 69, 82) then User(text)                    // USER
      else if Spells(code, 80, 65, 83, 83) then Password(text)           // PASS
      else if Spells(code, 84, 89, 80, 69) then TypeIs(ReadType(text))   // TYPE
      else if Spells(code, 80, 79, 82, 84) then                          // PORT
        (match ReadPort(text) case None => Unknown(line) case Some(port) => port)
      else if Spells(code, 82, 69, 84, 82) then Retrieve(text)           // RETR
      else if Spells(code, 83, 84, 79, 82) then Store(text)              // STOR
      else if Spells(code, 76, 73, 83, 84) then List(Some(text))         // LIST
      else if Spells(code, 78, 76, 83, 84) then NameList(Some(text))     // NLST
      else if Spells(code, 82, 78, 70, 82) then RenameFrom(text)         // RNFR
      else if Spells(code, 82, 78, 84, 79) then RenameTo(text)           // RNTO
      else Unknown(line)
  }

  function ReadAll(lines: seq<seq<byte>>): (r: seq<Request>)
    ensures |r| == |lines|
  {
    seq(|lines|, i requires 0 <= i < |lines| => ReadRequest(lines[i]))
  }

  lemma ReadAllAppend(a: seq<seq<byte>>, b: seq<seq<byte>>)
    ensures ReadAll(a + b) == ReadAll(a) + ReadAll(b)
  {
  }

  lemma OneRead(line: seq<byte>, r: Request)
    requires ReadRequest(line) == r
    ensures ReadAll([line]) == [r]
  {
  }

  /** All requests on the connection so far. */
  function Heard(sent: seq<byte>, loneLF: bool): (r: seq<Request>) {
    ReadAll(HeardLines([], sent, loneLF))
  }

  /** What has been sent before does not matter when it ends with a line. */
  lemma HeardAppend(sent: seq<byte>, more: seq<byte>, loneLF: bool)
    requires Unfinished([], sent, loneLF) == []
    ensures Heard(sent + more, loneLF) == Heard(sent, loneLF) + Heard(more, loneLF)
    ensures Unfinished([], sent + more, loneLF) == Unfinished([], more, loneLF)
  {
    LinesAppend([], sent, more, loneLF);
  }

  /** CR LF ends whatever line has come. */
  lemma CRLFEndsLine(line: seq<byte>, s: seq<byte>, loneLF: bool)
    ensures Unfinished(line, s + [CR, LF], loneLF) == []
  {
    LinesAppend(line, s, [CR, LF], loneLF);
    CRLFIsALine(Unfinished(line, s, loneLF), loneLF);
  }

  /** A line with a code of four letters and an argument. */
  lemma ReadsCode(code: seq<byte>, text: seq<byte>)
    requires |code| == 4 && forall b | b in code :: 65 <= b <= 90
    ensures Code(code + [SPACE] + text) == code && Argument(code + [SPACE] + text) == Some(text)
    ensures Code(code) == code && Argument(code) == None
  {
    CodeEnds(code, [SPACE] + text);
    assert code + [SPACE] + text == code + ([SPACE] + text) && code + [] == code;
    CodeEnds(code, []);
    assert ([SPACE] + text)[1..] == text;
    forall i | 0 <= i < 4 ensures Upper(code[i]) == code[i] {
      assert code[i] in code;
    }
  }

  lemma {:induction false} CodeEnds(code: seq<byte>, rest: seq<byte>)
    requires SPACE !in code && (rest == [] || rest[0] == SPACE)
    ensures CodeLen(code + rest) == |code|
  {
    if code == [] {
      assert code + rest == rest;
    } else {
      assert (code + rest)[1..] == code[1..] + rest;
      CodeEnds(code[1..], rest);
    }
  }

  // ---------- the server's files ----------

  type Files = map<seq<byte>, seq<byte>>

  /** The server's files, and the file that a rename request has named last. */
  datatype Disk = Disk(files: Files, source: Option<seq<byte>>)

  /** The server carries a request out; a transfer to it brings `data`. */
  function CarryOut(d: Disk, r: Request, data: seq<byte>): (d': Disk) {
    match r
    case Store(path) => Disk(d.files[path := data], None)
    case RenameFrom(path) => Disk(d.files, if path in d.files then Some(path) else None)
    case RenameTo(path) =>
      if d.source.Some? && d.source.value in d.files then
        Disk((d.files - {d.source.value})[path := d.files[d.source.value]], None)
      else Disk(d.files, None)
    case _ => Disk(d.files, None)
  }

  function CarryOutAll(d: Disk, rs: seq<Request>, data: seq<byte>): (d': Disk)
    decreases |rs|
  {
    if |rs| == 0 then d else CarryOutAll(CarryOut(d, rs[0], data), rs[1..], data)
  }

  lemma TwoRequests(d: Disk, a: Request, b: Request, data: seq<byte>)
    ensures CarryOutAll(d, [a, b], data) == CarryOut(CarryOut(d, a, data), b, data)
  {
    assert [a, b][1..] == [b] && [b][1..] == [];
    assert CarryOutAll(CarryOut(d, a, data), [b], data) == CarryOut(CarryOut(d, a, data), b, data);
  }

  /** The file that the server sends for a request to retrieve one. */
  function Offered(files: Files, r: Request): (data: Option<seq<byte>>) {
    if r.Retrieve? && r.path in files then Some(files[r.path]) else None
  }

  /** A request that is about the transfer, and not the transfer itself. */
  predicate Prepares(r: Request) {
    r.TypeIs? || r.EnterPassive? || r.DataPort?
  }

  lemma {:induction false} OnlyTheLastMatters(d: Disk, rs: seq<Request>, last: Request, data: seq<byte>)
    requires forall r | r in rs :: Prepares(r)
    ensures CarryOutAll(d, rs, data).files == d.files
    ensures last.Store? || last.Retrieve? || last.List? || last.NameList? ==>
      CarryOutAll(d, rs + [last], data).files == if last.Store? then d.files[last.path := data] else d.files
    decreases |rs|
  {
    if rs == [] {
      assert [last][1..] == [] && rs + [last] == [last];
    } else {
      assert (rs + [last])[1..] == rs[1..] + [last] && rs[0] in rs;
      OnlyTheLastMatters(CarryOut(d, rs[0], data), rs[1..], last, data);
    }
  }
}
