/**
 * `MessageProcessor.ProcessMessage`: a client message is split on `,`, its first field is parsed
 * as the signifier and a closed switch picks the handler. Here the split, the parse and the
 * field accesses the handlers make are one decoding function from the text to a command; the
 * server routes the command to its handler (`NetworkServer.ProcessReceivedMsg`).
 */
module MessageProcessor {
  import opened Wrappers
  import opened Text
  import Signifiers

  /** A decoded client message. */
  datatype Command =
    | Register(name: string, password: string)
    | Login(name: string, password: string)
    | JoinQueue
      /** A MakeMove whose position parsed as an int and whose symbol field is one character. */
    | MakeMove(position: int, symbol: char)
      /** A MakeMove the handler only logs: the position is not an int or the symbol field is
          not exactly one character. */
    | InvalidMove
    | GameRestart
      /** Any other signifier, QuitGame included: the switch's default branch only logs it. */
    | Unknown(signifier: int)
  {
    /** The signifier the message carried in its first field. */
    function Signifier(): int
    {
      match this
      case Register(_, _) => Signifiers.ClientToServer.Register.Code()
      case Login(_, _) => Signifiers.ClientToServer.Login.Code()
      case JoinQueue => Signifiers.ClientToServer.JoinQueue.Code()
      case MakeMove(_, _) => Signifiers.ClientToServer.MakeMove.Code()
      case InvalidMove => Signifiers.ClientToServer.MakeMove.Code()
      case GameRestart => Signifiers.ClientToServer.GameRestart.Code()
      case Unknown(s) => s
    }
  }

  /**
   * `Malformed` is a message on which the C# code throws: `int.Parse` of the first field fails,
   * or a handler reads `csv[1]` or `csv[2]` of a message with too few fields. No state changes.
   */
  datatype Decoded = Malformed | Decoded(cmd: Command)

  /** What `ProcessMessage` does with a message: split, parse the signifier, route. */
  function Decode(msg: string): (d: Decoded)
    ensures var first := ParseInt32(Split(msg, ',')[0]);
      && (first.None? ==> d.Malformed?)
      && (d.Decoded? ==> first == Some(d.cmd.Signifier()))
      && (d.Decoded? && d.cmd.Unknown? ==> !(1 <= d.cmd.signifier <= 5))
  {
    var csv := Split(msg, ',');
    match ParseInt32(csv[0])
    case None => Malformed
    case Some(signifier) => Route(signifier, csv)
  }

  /** The switch on the signifier, with the fields each handler reads from `csv`. */
  function Route(signifier: int, csv: seq<string>): (d: Decoded)
    requires |csv| >= 1
    ensures d.Decoded? ==> d.cmd.Signifier() == signifier
    ensures d.Decoded? && d.cmd.Unknown? <==> !(1 <= signifier <= 5)
    ensures (signifier == 1 || signifier == 2) ==> (d.Malformed? <==> |csv| < 3)
    ensures d.Decoded? && (d.cmd.Register? || d.cmd.Login?) ==> d.cmd.name == csv[1] && d.cmd.password == csv[2]
    ensures signifier == 3 || signifier == 5 || !(1 <= signifier <= 5) ==> d.Decoded?
  {
    match Signifiers.ClientToServerFromCode(signifier)
    case Some(Register) =>
      if |csv| < 3 then Malformed else Decoded(Register(csv[1], csv[2]))
    case Some(Login) =>
      if |csv| < 3 then Malformed else Decoded(Login(csv[1], csv[2]))
    case Some(JoinQueue) => Decoded(JoinQueue)
    case Some(MakeMove) => DecodeMove(csv)
    case Some(GameRestart) => Decoded(GameRestart)
    case Some(QuitGame) => Decoded(Unknown(signifier))
    case None => Decoded(Unknown(signifier))
  }

  /**
   * The fields `ProcessMakeMove` reads: `int.TryParse(csv[1])` first, and only if that succeeds
   * `csv[2].Length == 1`, so a message with two fields and a non-numeric position is merely
   * logged while one with a numeric position throws on `csv[2]`. The length is counted in
   * UTF-16 code units, so a symbol outside the Basic Multilingual Plane is not a move.
   */
  function DecodeMove(csv: seq<string>): (d: Decoded)
    requires |csv| >= 1
    ensures d == Decoded(InvalidMove) || d.Malformed? || (d.Decoded? && d.cmd.MakeMove?)
    ensures d.Malformed? <==> |csv| < 2 || (|csv| == 2 && ParseInt32(csv[1]).Some?)
    ensures d.Decoded? && d.cmd.MakeMove? <==>
      |csv| >= 3 && ParseInt32(csv[1]).Some? && |csv[2]| == 1 && csv[2][0] as int < 0x1_0000
    ensures d.Decoded? && d.cmd.MakeMove? ==>
      Some(d.cmd.position) == ParseInt32(csv[1]) && [d.cmd.symbol] == csv[2]
  {
    if |csv| < 2 then Malformed
    else match ParseInt32(csv[1])
      case None => Decoded(InvalidMove)
      case Some(position) =>
        if |csv| < 3 then Malformed
        else if Utf16Length(csv[2]) == 1 then
          Utf16LengthOne(csv[2]);
          Decoded(MakeMove(position, csv[2][0]))
        else
          Utf16LengthOne(csv[2]);
          Decoded(InvalidMove)
  }

  /** The text a client sends for a command: the signifier and the fields, joined with `,`. */
  function Encode(cmd: Command): string
  {
    match cmd
    case Register(n, p) => Join([IntToString(Signifiers.ClientToServer.Register.Code()), n, p], ',')
    case Login(n, p) => Join([IntToString(Signifiers.ClientToServer.Login.Code()), n, p], ',')
    case JoinQueue => IntToString(Signifiers.ClientToServer.JoinQueue.Code())
    case MakeMove(pos, sym) =>
      Join([IntToString(Signifiers.ClientToServer.MakeMove.Code()), IntToString(pos), [sym]], ',')
    case InvalidMove => Join([IntToString(Signifiers.ClientToServer.MakeMove.Code()), "", ""], ',')
    case GameRestart => IntToString(Signifiers.ClientToServer.GameRestart.Code())
    case Unknown(s) => IntToString(s)
  }

  /** The commands a client can put on the wire: no field holds a `,`, numbers fit in 32 bits. */
  predicate Encodable(cmd: Command)
  {
    match cmd
    case Register(n, p) => ',' !in n && ',' !in p
    case Login(n, p) => ',' !in n && ',' !in p
    case MakeMove(pos, sym) => IsInt32(pos) && sym != ',' && sym as int < 0x1_0000
    case Unknown(s) => IsInt32(s) && !(1 <= s <= 5)
    case _ => true
  }

  /** A message made of separator-free fields is routed on the signifier its first field holds. */
  lemma DecodeJoined(fields: seq<string>, signifier: int)
    requires |fields| >= 1 && fields[0] == IntToString(signifier) && IsInt32(signifier)
    requires forall i :: 0 <= i < |fields| ==> ',' !in fields[i]
    ensures Decode(Join(fields, ',')) == Route(signifier, fields)
  {
    SplitJoin(fields, ',');
    ParseIntToString(signifier);
  }

  /** Decoding what a client encodes gives the command back. */
  lemma {:induction false} DecodeEncode(cmd: Command)
    requires Encodable(cmd)
    ensures Decode(Encode(cmd)) == Decoded(cmd)
  {
    var sig := cmd.Signifier();
    var code := IntToString(sig);
    IntToStringHasNoComma(sig);
    var fields := match cmd
      case Register(n, p) => [code, n, p]
      case Login(n, p) => [code, n, p]
      case MakeMove(pos, sym) => [code, IntToString(pos), [sym]]
      case InvalidMove => [code, "", ""]
      case _ => [code];
    assert Encode(cmd) == Join(fields, ',');
    if cmd.MakeMove? {
      IntToStringHasNoComma(cmd.position);
      ParseIntToString(cmd.position);
    }
    if cmd.InvalidMove? {
      assert ParseInt32("") == None;
    }
    DecodeJoined(fields, sig);
    assert Route(sig, fields) == Decoded(cmd);
  }
}
