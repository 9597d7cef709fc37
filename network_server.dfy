/**
 * The state the server keeps and the handlers that change it: the connection table, the account
 * list and its file, the matchmaking slot, the game rooms, the one shared 3x3 board, and the
 * messages sent so far. Sending a message appends it to `outbox`.
 */
module Server {
  import opened Wrappers
  import opened Text
  import opened Signifiers
  import opened Connections
  import opened Accounts
  import Matchmaking
  import MessageProcessor

  /** A room made by pairing two queued players; joiners are appended as observers. */
  class GameRoom {
    var player1: Connection
    var player2: Connection
    var observers: seq<Connection>

    constructor (p1: Connection, p2: Connection)
      ensures player1 == p1 && player2 == p2 && observers == []
    {
      player1, player2 := p1, p2;
      observers := [];
    }

    /** A plain append: adding the same connection twice lists it twice. */
    method AddObserver(observer: Connection)
      modifies this`observers
      ensures observers == old(observers) + [observer]
    {
      observers := observers + [observer];
    }
  }

  class NetworkServer {
    /** `networkConnections`: the handles accepted so far; a disconnect leaves `Default`. */
    var connections: seq<Connection>
    /** `playerAccounts`, in registration (and file) order. */
    var accounts: seq<Account>
    /** The lines of the account file; `None` while no file exists. */
    var accountFile: Option<seq<string>>
    /** `playerInQueueID`, with `None` for the empty slot (see module Matchmaking). */
    var queued: Option<Connection>
    /** `gameRooms`, in creation order. */
    var rooms: seq<GameRoom>
    /** `gameBoard`: one board shared by every room. */
    const board: array<char>
    /** Every message sent, in the order `SendMessageToClient` was called. */
    var outbox: seq<Message>

    ghost predicate Valid()
    {
      board.Length == 9
    }

    /** `Start`: load the account file if there is one, no rooms, an empty queue, a blank board. */
    constructor (file: Option<seq<string>>)
      ensures Valid() && fresh(board)
      ensures connections == [] && queued == None && rooms == [] && outbox == []
      ensures accountFile == file
      ensures accounts == if file.Some? then LoadAccounts(file.value).accounts else []
      ensures forall k :: 0 <= k < board.Length ==> board[k] == ' '
    {
      board := new char[9];
      connections := [];
      accounts := [];
      accountFile := file;
      queued := None;
      rooms := [];
      outbox := [];
      new;
      var _ := LoadPlayerAccounts();
      InitializeGameBoard();
    }

    method InitializeGameBoard()
      requires Valid()
      modifies board
      ensures forall k :: 0 <= k < board.Length ==> board[k] == ' '
    {
      for i := 0 to 9
        invariant forall k :: 0 <= k < i ==> board[k] == ' '
      {
        board[i] := ' ';
      }
    }

    // -------------------------------------------------------------------------------------
    // The connection table

    /** `AcceptIncomingConnection`: the transport's next handle, `Default` when there is none. */
    method AcceptConnection(c: Connection) returns (accepted: bool)
      modifies this`connections
      ensures accepted <==> c != Default
      ensures connections == if accepted then old(connections) + [c] else old(connections)
    {
      if c == Default {
        return false;
      }
      connections := connections + [c];
      return true;
    }

    /** A Disconnect event for entry `i` overwrites it with `default(NetworkConnection)`. */
    method HandleDisconnect(i: nat)
      requires i < |connections|
      modifies this`connections
      ensures connections == old(connections)[i := Default]
      ensures !connections[i].created
    {
      connections := connections[i := Default];
    }

    /**
     * The pruning pass of `Update`: every entry no longer created is removed with swap-back
     * removal. Afterwards every entry is created, and the created entries are exactly those
     * that were there before, each as often as before (their order may change).
     */
    method PruneConnections()
      modifies this`connections
      ensures forall k :: 0 <= k < |connections| ==> connections[k].created
      ensures multiset(connections) == multiset(CreatedOnly(old(connections)))
    {
      var i := 0;
      while i < |connections|
        invariant 0 <= i <= |connections|
        invariant forall k :: 0 <= k < i ==> connections[k].created
        invariant SameCreated(connections, old(connections))
        decreases |connections| - i
      {
        if !connections[i].created {
          RemoveUncreatedKeepsCreated(connections, i, old(connections));
          RemoveKeepsCheckedPrefix(connections, i);
          connections := RemoveAtSwapBack(connections, i);
          // `i--` followed by the loop's `i++`: the entry moved into place `i` is looked at next
        } else {
          i := i + 1;
        }
      }
      PrunedIsCreatedOnly(connections, old(connections));
    }

    // -------------------------------------------------------------------------------------
    // Sending

    method SendMessageToClient(text: string, to: Connection)
      modifies this`outbox
      ensures outbox == old(outbox) + [Message(to, text)]
    {
      outbox := outbox + [Message(to, text)];
    }

    /** One message to every entry of the connection table, in table order. */
    method BroadcastToClients(text: string)
      modifies this`outbox
      ensures outbox == old(outbox) + Broadcast(connections, text)
    {
      for i := 0 to |connections|
        invariant outbox == old(outbox) + Broadcast(connections[..i], text)
      {
        SendMessageToClient(text, connections[i]);
        assert Broadcast(connections[..i + 1], text) == Broadcast(connections[..i], text) + [Message(connections[i], text)];
      }
      assert connections[..|connections|] == connections;
    }

    // -------------------------------------------------------------------------------------
    // Accounts

    /**
     * `ProcessRegister`: a taken name gets RegisterFailed and changes nothing else; a fresh name
     * is appended with its password, gets RegisterComplete, and the file is rewritten.
     */
    method ProcessRegister(name: string, password: string, client: Connection)
      modifies this`accounts, this`outbox, this`accountFile
      ensures accounts == Registered(old(accounts), name, password)
      ensures outbox == old(outbox) + [Message(client, RegisterReply(old(accounts), name))]
      ensures accountFile == if NameInUse(old(accounts), name) then old(accountFile) else Some(SaveLines(accounts))
    {
      var nameIsInUse := false;
      var i := 0;
      while i < |accounts|
        invariant 0 <= i <= |accounts|
        invariant forall k :: 0 <= k < i ==> accounts[k].name != name
      {
        if accounts[i].name == name {
          nameIsInUse := true;
          break;
        }
        i := i + 1;
      }
      assert nameIsInUse <==> NameInUse(accounts, name);
      if nameIsInUse {
        SendMessageToClient(Bare(RegisterFailed), client);
      } else {
        accounts := accounts + [Account(name, password)];
        SendMessageToClient(Bare(RegisterComplete), client);
        SavePlayerAccounts();
      }
    }

    /** `SavePlayerAccounts`: the file becomes one line per account, in list order. */
    method SavePlayerAccounts()
      modifies this`accountFile
      ensures accountFile == Some(SaveLines(accounts))
    {
      var lines := [];
      for i := 0 to |accounts|
        invariant lines == SaveLines(accounts[..i])
      {
        assert accounts[..i + 1][..i] == accounts[..i];
        lines := lines + [AccountLine(accounts[i])];
      }
      assert accounts[..|accounts|] == accounts;
      accountFile := Some(lines);
    }

    /**
     * `LoadPlayerAccounts`: the accounts of the file's `1` lines are appended in file order. A line
     * whose first field is not an int, or a `1` line with fewer than three fields, throws in the
     * C# code; here reading stops there and `complete` is false.
     */
    method LoadPlayerAccounts() returns (complete: bool)
      modifies this`accounts
      ensures accountFile.None? ==> accounts == old(accounts) && complete
      ensures accountFile.Some? ==>
        var loaded := LoadAccounts(accountFile.value);
        accounts == old(accounts) + loaded.accounts && complete == loaded.complete
    {
      complete := true;
      if accountFile.None? {
        return;
      }
      var lines := accountFile.value;
      var i := 0;
      while i < |lines|
        invariant 0 <= i <= |lines|
        invariant LoadParsed(ParseLines(lines[..i])).complete
        invariant accounts == old(accounts) + LoadParsed(ParseLines(lines[..i])).accounts
      {
        // `line.Split(',')`, `int.Parse(csv[0])` and, on a `1` line, `csv[1]` and `csv[2]`
        var parsed := ParseAccountLine(lines[i]);
        LoadAdvance(lines, i);
        if parsed.Throws? {
          complete := false;
          return;
        }
        if parsed.Parsed? {
          accounts := accounts + [parsed.account];
        }
        i := i + 1;
      }
      assert lines[..|lines|] == lines;
    }

    /**
     * `ProcessLogin`: one reply per account carrying the name (LoginComplete when the password
     * matches, LoginFailed otherwise), or a single LoginFailed when no account has it. The
     * account list is not touched.
     */
    method ProcessLogin(name: string, password: string, client: Connection)
      modifies this`outbox
      ensures outbox == old(outbox) + Replies(client, LoginReplies(accounts, name, password))
    {
      var nameWasFound := false;
      var msgSentToClient := false;
      for i := 0 to |accounts|
        invariant outbox == old(outbox) + Replies(client, LoginMatches(accounts[..i], name, password))
        invariant nameWasFound == msgSentToClient == (LoginMatches(accounts[..i], name, password) != [])
      {
        LoginLoopStep(old(outbox), client, accounts, i, name, password);
        if accounts[i].name == name {
          nameWasFound := true;
          if accounts[i].password == password {
            SendMessageToClient(Bare(LoginComplete), client);
            msgSentToClient := true;
          } else {
            SendMessageToClient(Bare(LoginFailed), client);
            msgSentToClient := true;
          }
        }
      }
      assert accounts[..|accounts|] == accounts;
      ghost var sent := outbox;
      LoginFinish(old(outbox), client, accounts, name, password);
      if !nameWasFound {
        if !msgSentToClient {
          SendMessageToClient(Bare(LoginFailed), client);
          assert outbox == sent + [Message(client, Bare(LoginFailed))];
        }
      }
    }

    // -------------------------------------------------------------------------------------
    // Matchmaking and rooms

    /**
     * The effect of `ProcessJoinQueue` for `client`: the slot becomes what `Matchmaking.JoinQueue`
     * leaves in it; when that step pairs two connections, one fresh room holding them is appended
     * to `rooms` with `client` as its only observer, and the outbox gets GameStart for both players
     * and then Observer for `client`; otherwise rooms and outbox are as they were.
     */
    twostate predicate JoinedQueue(client: Connection)
      reads this, rooms
    {
      var step := Matchmaking.JoinQueue(old(queued), client);
      && queued == step.slot
      && (step.room.None? ==> rooms == old(rooms) && outbox == old(outbox))
      && (step.room.Some? ==>
            && |rooms| == |old(rooms)| + 1 && rooms[..|old(rooms)|] == old(rooms)
            && var room := rooms[|old(rooms)|];
            && fresh(room)
            && room.player1 == step.room.value.player1 && room.player2 == step.room.value.player2
            && room.observers == [client]
            && outbox == old(outbox) + [
                 Message(room.player1, WithComma(GameStart)),
                 Message(room.player2, WithComma(GameStart)),
                 Message(client, WithComma(Observer))])
    }

    /**
     * `ProcessJoinQueue`: an empty slot takes the joiner. An occupied slot is paired with the
     * joiner in a new room appended to `rooms` (occupant as player 1), both get GameStart, the
     * slot is emptied, and then, since `rooms` is not empty, the joiner is also appended as an
     * observer of the last room (the new one) and sent Observer.
     */
    method ProcessJoinQueue(client: Connection)
      modifies this`queued, this`rooms, this`outbox
      ensures JoinedQueue(client)
    {
      if queued.None? {
        queued := Some(client);
      } else {
        var room := new GameRoom(queued.value, client);
        rooms := rooms + [room];
        SendMessageToClient(WithComma(GameStart), room.player1);
        SendMessageToClient(WithComma(GameStart), room.player2);
        queued := None;
        if |rooms| > 0 {
          var observer := client;
          rooms[|rooms| - 1].AddObserver(observer);
          SendMessageToClient(WithComma(Observer), observer);
        }
      }
    }

    // -------------------------------------------------------------------------------------
    // The shared board

    /** `UpdateGameBoard`: the cell is written only when the position is on the board. */
    method UpdateGameBoard(position: int, player: char)
      requires Valid()
      modifies board
      ensures 0 <= position < 9 ==> board[position] == player
      ensures forall k :: 0 <= k < 9 && k != position ==> board[k] == old(board[k])
    {
      if 0 <= position < 9 {
        board[position] := player;
      }
    }

    method BroadcastGameBoard(position: int, symbol: char)
      modifies this`outbox
      ensures outbox == old(outbox) + Broadcast(connections, UpdateGameBoardText(position, symbol))
    {
      BroadcastToClients(UpdateGameBoardText(position, symbol));
    }

    /**
     * `ProcessMakeMove` on a well-formed move: only the named cell can change, with no check of
     * occupancy, turn or winner, and `"6,<position>,<symbol>"` goes to every connection even
     * when the position is off the board.
     */
    method ProcessMakeMove(position: int, symbol: char)
      requires Valid()
      modifies board, this`outbox
      ensures 0 <= position < 9 ==> board[position] == symbol
      ensures forall k :: 0 <= k < 9 && k != position ==> board[k] == old(board[k])
      ensures outbox == old(outbox) + Broadcast(connections, UpdateGameBoardText(position, symbol))
    {
      UpdateGameBoard(position, symbol);
      BroadcastGameBoard(position, symbol);
    }

    /** `ProcessGameRestart`: every cell blank again, and GameReset to every connection. */
    method ProcessGameRestart()
      requires Valid()
      modifies board, this`outbox
      ensures forall k :: 0 <= k < 9 ==> board[k] == ' '
      ensures outbox == old(outbox) + Broadcast(connections, WithComma(GameReset))
    {
      InitializeGameBoard();
      BroadcastToClients(WithComma(GameReset));
    }

    // -------------------------------------------------------------------------------------
    // Dispatch

    /**
     * `ProcessReceivedMsg` / `MessageProcessor.ProcessMessage`: decode the message and run the
     * handler of its signifier. A message the C# code would throw on changes nothing and sends
     * nothing.
     */
    method ProcessReceivedMsg(msg: string, client: Connection) returns (d: MessageProcessor.Decoded)
      requires Valid()
      modifies this, board
      ensures d == MessageProcessor.Decode(msg)
      ensures d.Malformed? ==> unchanged(this) && unchanged(board)
      ensures d.Decoded? ==> Handled(d.cmd, client)
    {
      d := MessageProcessor.Decode(msg);
      match d
      case Malformed =>
        // `int.Parse` or a `csv[...]` access throws: the message is dropped
      case Decoded(cmd) => HandleCommand(cmd, client);
    }

    /**
     * What running the handler of `cmd` did, between the state before (`old`) and now. An invalid
     * move and an unknown signifier change nothing and send nothing; no handler touches the
     * connection table, only Register touches the accounts and their file, and only JoinQueue
     * touches the slot and the rooms.
     */
    twostate predicate Handled(cmd: MessageProcessor.Command, client: Connection)
      reads this, board, rooms
    {
      && connections == old(connections)
      && (!cmd.Register? ==> accounts == old(accounts) && accountFile == old(accountFile))
      && (!cmd.JoinQueue? ==> queued == old(queued) && rooms == old(rooms))
      && (cmd.InvalidMove? || cmd.Unknown? ==> unchanged(this) && unchanged(board))
      && (cmd.Register? ==>
            && accounts == Registered(old(accounts), cmd.name, cmd.password)
            && accountFile == (if NameInUse(old(accounts), cmd.name) then old(accountFile) else Some(SaveLines(accounts)))
            && outbox == old(outbox) + [Message(client, RegisterReply(old(accounts), cmd.name))]
            && unchanged(board))
      && (cmd.Login? ==>
            && outbox == old(outbox) + Replies(client, LoginReplies(accounts, cmd.name, cmd.password))
            && unchanged(board))
      && (cmd.JoinQueue? ==> JoinedQueue(client) && unchanged(board))
      && (cmd.MakeMove? ==>
            && board.Length == 9
            && (0 <= cmd.position < 9 ==> board[cmd.position] == cmd.symbol)
            && (forall k :: 0 <= k < 9 && k != cmd.position ==> board[k] == old(board[k]))
            && outbox == old(outbox) + Broadcast(connections, UpdateGameBoardText(cmd.position, cmd.symbol)))
      && (cmd.GameRestart? ==>
            && board.Length == 9
            && (forall k :: 0 <= k < 9 ==> board[k] == ' ')
            && outbox == old(outbox) + Broadcast(connections, WithComma(GameReset)))
    }

    /** The switch of `ProcessMessage`: the handler each decoded command runs. */
    method HandleCommand(cmd: MessageProcessor.Command, client: Connection)
      requires Valid()
      modifies this, board
      ensures Handled(cmd, client)
    {
      match cmd
      case Register(name, password) => ProcessRegister(name, password, client);
      case Login(name, password) => ProcessLogin(name, password, client);
      case JoinQueue => ProcessJoinQueue(client);
      case MakeMove(position, symbol) => ProcessMakeMove(position, symbol);
      case InvalidMove =>
        // "Invalid format for MakeMove message." is only logged
      case GameRestart => ProcessGameRestart();
      case Unknown(_) =>
        // "Unknown message signifier" is only logged
    }
  }

  /**
   * One pass of the login loop over account `i`: no message when the name differs, otherwise
   * LoginComplete or LoginFailed; afterwards the loop has replied exactly when it had before or
   * the name matched.
   */
  lemma LoginLoopStep(base: seq<Message>, client: Connection, accounts: seq<Account>, i: nat,
                      name: string, password: string)
    requires i < |accounts|
    ensures var before := LoginMatches(accounts[..i], name, password);
      var after := LoginMatches(accounts[..i + 1], name, password);
      var sent := base + Replies(client, before);
      && (after != [] <==> before != [] || accounts[i].name == name)
      && (accounts[i].name != name ==> base + Replies(client, after) == sent)
      && (accounts[i].name == name && accounts[i].password == password ==>
            base + Replies(client, after) == sent + [Message(client, Bare(LoginComplete))])
      && (accounts[i].name == name && accounts[i].password != password ==>
            base + Replies(client, after) == sent + [Message(client, Bare(LoginFailed))])
  {
    var before := LoginMatches(accounts[..i], name, password);
    var reply := LoginReplyFor(accounts[i], name, password);
    LoginStep(accounts, i, name, password);
    RepliesAppend(base, client, before, reply);
    if accounts[i].name == name {
      assert Replies(client, reply) == [Message(client, reply[0])];
    } else {
      assert Replies(client, reply) == [];
    }
  }

  /** After the loop: its replies stand, or the one LoginFailed is added when it sent none. */
  lemma LoginFinish(base: seq<Message>, client: Connection, accounts: seq<Account>,
                    name: string, password: string)
    ensures var matches := LoginMatches(accounts, name, password);
      var sent := base + Replies(client, matches);
      var replies := base + Replies(client, LoginReplies(accounts, name, password));
      && (matches != [] ==> sent == replies)
      && (matches == [] ==> sent + [Message(client, Bare(LoginFailed))] == replies)
  {
    var matches := LoginMatches(accounts, name, password);
    if matches == [] {
      assert Replies(client, [Bare(LoginFailed)]) == [Message(client, Bare(LoginFailed))];
    }
  }

  /**
   * One more line read after lines that all read cleanly: a throwing line ends the reading with
   * what the lines before it gave, a skipped line adds nothing, a parsed line adds its account.
   */
  lemma LoadAdvance(lines: seq<string>, i: nat)
    requires i < |lines| && LoadParsed(ParseLines(lines[..i])).complete
    ensures var previous := LoadParsed(ParseLines(lines[..i]));
      match ParseAccountLine(lines[i])
      case Throws => LoadParsed(ParseLines(lines)) == Loaded(previous.accounts, false)
      case Skipped => LoadParsed(ParseLines(lines[..i + 1])) == previous
      case Parsed(a) => LoadParsed(ParseLines(lines[..i + 1])) == Loaded(previous.accounts + [a], true)
  {
    var parses := ParseLines(lines);
    ParseLinesPrefix(lines, i + 1);
    ParseLinesPrefix(lines, i);
    LoadParsedStep(parses, i);
    if parses[i].Throws? {
      LoadStopsAtThrow(parses, i);
    }
  }

  /** When line `i` throws, reading ends with what the lines before it gave. */
  lemma {:induction false} LoadStopsAtThrow(parses: seq<LineParse>, i: nat)
    requires i < |parses| && parses[i].Throws?
    requires LoadParsed(parses[..i]).complete
    ensures LoadParsed(parses) == Loaded(LoadParsed(parses[..i]).accounts, false)
    decreases |parses|
  {
    var prefix := parses[..|parses| - 1];
    if i == |parses| - 1 {
      assert prefix == parses[..i];
    } else {
      assert prefix[..i] == parses[..i];
      LoadStopsAtThrow(prefix, i);
    }
  }
}
