/**
 * The two closed signifier enumerations of the wire protocol (`ClientToServerSignifiers` and
 * `ServerToClientSignifiers`) and the texts the server sends with them.
 */
module Signifiers {
  import opened Wrappers
  import opened Text

  /** What a client may ask for; the first field of every client message. */
  datatype ClientToServer = Register | Login | JoinQueue | MakeMove | GameRestart | QuitGame
  {
    function Code(): int
    {
      match this
      case Register => 1
      case Login => 2
      case JoinQueue => 3
      case MakeMove => 4
      case GameRestart => 5
      case QuitGame => 6
    }
  }

  /** The client signifier a code stands for; exactly the codes 1 to 6 stand for one. */
  function ClientToServerFromCode(code: int): (r: Option<ClientToServer>)
    ensures forall s: ClientToServer :: r == Some(s) <==> s.Code() == code
    ensures r.Some? <==> 1 <= code <= 6
  {
    if code == 1 then Some(Register)
    else if code == 2 then Some(Login)
    else if code == 3 then Some(JoinQueue)
    else if code == 4 then Some(MakeMove)
    else if code == 5 then Some(GameRestart)
    else if code == 6 then Some(QuitGame)
    else None
  }

  /** What the server tells a client; the first field of every server message. */
  datatype ServerToClient =
    | LoginComplete | LoginFailed | RegisterComplete | RegisterFailed | GameStart
    | UpdateGameBoard | GameReset | PlayerDisconnected | Observer
  {
    function Code(): int
    {
      match this
      case LoginComplete => 1
      case LoginFailed => 2
      case RegisterComplete => 3
      case RegisterFailed => 4
      case GameStart => 5
      case UpdateGameBoard => 6
      case GameReset => 7
      case PlayerDisconnected => 8
      case Observer => 9
    }
  }

  /** The server signifier a code stands for; exactly the codes 1 to 9 stand for one. */
  function ServerToClientFromCode(code: int): (r: Option<ServerToClient>)
    ensures forall s: ServerToClient :: r == Some(s) <==> s.Code() == code
    ensures r.Some? <==> 1 <= code <= 9
  {
    if code == 1 then Some(LoginComplete)
    else if code == 2 then Some(LoginFailed)
    else if code == 3 then Some(RegisterComplete)
    else if code == 4 then Some(RegisterFailed)
    else if code == 5 then Some(GameStart)
    else if code == 6 then Some(UpdateGameBoard)
    else if code == 7 then Some(GameReset)
    else if code == 8 then Some(PlayerDisconnected)
    else if code == 9 then Some(Observer)
    else None
  }

  /** Distinct signifiers have distinct codes, in both directions of the protocol. */
  lemma CodesAreInjective()
    ensures forall a: ClientToServer, b: ClientToServer :: a.Code() == b.Code() ==> a == b
    ensures forall a: ServerToClient, b: ServerToClient :: a.Code() == b.Code() ==> a == b
  {
    forall a: ClientToServer, b: ClientToServer | a.Code() == b.Code() ensures a == b {
      assert ClientToServerFromCode(a.Code()) == Some(a);
    }
    forall a: ServerToClient, b: ServerToClient | a.Code() == b.Code() ensures a == b {
      assert ServerToClientFromCode(a.Code()) == Some(a);
    }
  }

  /** `signifier + ""`: the reply that is the signifier alone, such as `"4"` for RegisterFailed. */
  function Bare(s: ServerToClient): (t: string)
    ensures t == [DigitChar(s.Code())]
  {
    IntToString(s.Code())
  }

  /** `signifier + ","`: the reply with an empty second field, such as `"5,"` for GameStart. */
  function WithComma(s: ServerToClient): (t: string)
    ensures |t| == 2 && t[..1] == Bare(s) && t[1] == ','
  {
    IntToString(s.Code()) + ","
  }

  /** `$"{UpdateGameBoard},{position},{symbol}"`, the move broadcast. */
  function UpdateGameBoardText(position: int, symbol: char): (t: string)
    ensures |t| >= 5 && t[..2] == "6," && t[|t| - 2..] == [',', symbol]
    ensures t[2..|t| - 2] == IntToString(position)
  {
    var code := IntToString(UpdateGameBoard.Code());
    assert code == "6";
    code + "," + IntToString(position) + "," + [symbol]
  }

  /** A client splitting a server reply on `,` reads the signifier back from its first field. */
  lemma {:induction false} RepliesCarryTheirSignifier(s: ServerToClient)
    ensures Split(Bare(s), ',') == [IntToString(s.Code())]
    ensures Split(WithComma(s), ',') == [IntToString(s.Code()), ""]
    ensures ParseInt32(IntToString(s.Code())) == Some(s.Code())
    ensures ServerToClientFromCode(s.Code()) == Some(s)
  {
    var code := IntToString(s.Code());
    SplitNoSeparator(code, ',');
    SplitAtSeparator(code, ',', "");
    assert WithComma(s) == code + [','] + "";
    ParseIntToString(s.Code());
  }

  /** A client splitting the move broadcast recovers the signifier, the position and the symbol. */
  lemma {:induction false} UpdateGameBoardTextFields(position: int, symbol: char)
    requires IsInt32(position) && symbol != ','
    ensures var csv := Split(UpdateGameBoardText(position, symbol), ',');
      && |csv| == 3
      && ParseInt32(csv[0]) == Some(UpdateGameBoard.Code())
      && ParseInt32(csv[1]) == Some(position)
      && csv[2] == [symbol]
  {
    IntToStringHasNoComma(position);
    SplitThreeFields(IntToString(UpdateGameBoard.Code()), IntToString(position), [symbol], ',');
    ParseIntToString(UpdateGameBoard.Code());
    ParseIntToString(position);
  }
}
