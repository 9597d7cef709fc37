# TicTacToe server: a verified model of its state and message handling

This project models the game logic of the TicTacToe network server in Dafny:
- the account registry and its file;
- the matchmaking slot;
- the game rooms and their observers;
- the single shared 3x3 board;
- the connection table and its pruning;
- the decoding and routing of client messages.

The model says what every handler does to the server's state and which messages it sends.

It has these modules:

- `Wrappers`: `Option`.
- `Text`: the parts of .NET that the protocol relies on:
  - `String.Split(',')`, with empty fields kept;
  - `int.Parse`/`int.TryParse` under the default number style: surrounding white space, an optional sign, decimal digits, 32-bit range;
  - the decimal text of an `int`.
- `Signifiers`: the two closed signifier enumerations, client to server (1..6) and server to client (1..9). Also the reply texts built from them: `"4"`, `"5,"`, `"6,<position>,<symbol>"`, ...
- `MessageProcessor`: `ProcessMessage`.
  - The split, the signifier parse and the fields each handler reads become one function, `Decode`, from the text to a `Command`.
  - A message on which the C# code throws becomes `Malformed`.
- `Accounts`: the account list as a value:
  - what registering and logging in reply;
  - the line format `1,<name>,<password>` of the account file;
  - what loading a file gives.
- `Connections`: connection handles and the `created` flag (`IsCreated`), sent messages, broadcasting, and `RemoveAtSwapBack`.
- `Matchmaking`: one join on the single slot, both as the code is written and as intended (see Findings).
- `Server`: the `GameRoom` and `NetworkServer` classes.
  - `NetworkServer` holds the connection table, the account list, the account file as a sequence of lines, the matchmaking slot, the rooms and the `char[9]` board as an array.
  - Sending a message appends `(recipient, text)` to `outbox`.
  - Each handler is a method whose contract gives the new state in terms of the old one, using the functions above.

The model follows the code, except for the matchmaking slot test (see Findings) and the departures listed under "Left out" below.

Behaviour a reader might expect but the code does not have:
- There is one board shared by every room, not one board per room.
- A move is not checked for occupancy, turn, finished game or sender.
- The move broadcast and the reset broadcast go to every connection in the table, not only to a room's players and observers.
- `AddObserver` appends, so an observer added twice is listed twice.
- A disconnect sends no `PlayerDisconnected` and leaves the slot as it was.
- `QuitGame` (6) is handled like an unknown signifier.
- After a join that pairs two players, the joiner is also added as an observer of the room it just joined.
- A corrupt account line is not treated as "no accounts yet". `int.Parse` or `csv[1]`/`csv[2]` throws, and reading stops there.

## Model

| member | source | states |
|---|---|---|
| `Text.Split` | TicTacToe_Server/Assets/Scripts/ServerMessageProcessor.cs:17 | the split has at least one field and no field contains the separator |
| `Text.SplitJoin` | TicTacToe_Server/Assets/Scripts/ServerMessageProcessor.cs:17 | splitting separator-free fields joined with the separator gives the fields back |
| `Text.JoinSplit` | TicTacToe_Server/Assets/Scripts/ServerMessageProcessor.cs:17 | joining the fields of a split with the separator gives the text back |
| `Text.TrimStartDropsLeadingWhiteSpace` | TicTacToe_Server/Assets/Scripts/ServerMessageProcessor.cs:18 | trimming the front removes exactly the leading white space: the result is a suffix, every dropped character is white space, and the result does not start with white space |
| `Text.TrimEndDropsTrailingWhiteSpace` | TicTacToe_Server/Assets/Scripts/ServerMessageProcessor.cs:18 | the same for the back: a prefix, only trailing white space dropped, and no white space left at the end |
| `Text.ParseInt32` | TicTacToe_Server/Assets/Scripts/ServerMessageProcessor.cs:18 | a successful parse is a 32-bit value; a failed one is the exception of `int.Parse` (or `false` from `TryParse`) |
| `Text.IntToString` | TicTacToe_Server/Assets/Scripts/NetworkServer.cs:330 | the decimal text of an int starts with `-` exactly when the int is negative, has at least one digit after that sign, and is digits everywhere else |
| `Text.Utf16Length` | TicTacToe_Server/Assets/Scripts/NetworkServer.cs:274 | `String.Length` counts UTF-16 code units: at least one per character and at most two |
| `Text.Utf16LengthOne` | TicTacToe_Server/Assets/Scripts/NetworkServer.cs:274 | `Length == 1` in UTF-16 code units holds exactly for a one-character string whose character lies in the Basic Multilingual Plane |
| `Text.ParseIntToString` | TicTacToe_Server/Assets/Scripts/ServerMessageProcessor.cs:18 | parsing the decimal text of any 32-bit int gives that int back |
| `Text.IntToStringHasNoComma` | TicTacToe_Server/Assets/Scripts/NetworkServer.cs:330 | a formatted number never holds the field separator, so it always stays one field |
| `Signifiers.ClientToServerFromCode` | TicTacToe_Server/Assets/Scripts/ServerMessageProcessor.cs:45-53 | a code stands for a client signifier exactly when that signifier's constant is the code, which happens exactly for 1..6 |
| `Signifiers.ServerToClientFromCode` | TicTacToe_Server/Assets/Scripts/ServerMessageProcessor.cs:55-66 | a code stands for a server signifier exactly when that signifier's constant is the code, which happens exactly for 1..9 |
| `Signifiers.CodesAreInjective` | TicTacToe_Server/Assets/Scripts/ServerMessageProcessor.cs:45-66 | distinct signifiers have distinct codes, in both directions |
| `Signifiers.Bare` | TicTacToe_Server/Assets/Scripts/NetworkServer.cs:197 | `signifier + ""` is the single decimal digit of the signifier's code |
| `Signifiers.WithComma` | TicTacToe_Server/Assets/Scripts/NetworkServer.cs:255 | `signifier + ","` is that digit followed by one `,` and nothing else |
| `Signifiers.UpdateGameBoardText` | TicTacToe_Server/Assets/Scripts/NetworkServer.cs:309 | the move broadcast starts with `6,`, ends with `,` and the symbol, and holds the decimal text of the position in between |
| `Signifiers.RepliesCarryTheirSignifier` | TicTacToe_Server/Assets/Scripts/NetworkServer.cs:197-264 | a client splitting `signifier + ""` gets one field and splitting `signifier + ","` gets two, the second empty; the first field parses back to the code, which decodes to the signifier |
| `Signifiers.UpdateGameBoardTextFields` | TicTacToe_Server/Assets/Scripts/NetworkServer.cs:307-314 | the move broadcast splits into exactly three fields: `6`, the position (which parses back) and the symbol |
| `MessageProcessor.Decode` | TicTacToe_Server/Assets/Scripts/ServerMessageProcessor.cs:13-42 | a first field that does not parse is `Malformed`; a decoded command carries the parsed signifier; only signifiers outside 1..5 give `Unknown` |
| `MessageProcessor.Route` | TicTacToe_Server/Assets/Scripts/ServerMessageProcessor.cs:20-41 | 1..5 go to their handlers and anything else is `Unknown`. Register and Login are `Malformed` exactly when there are fewer than three fields, and otherwise take name and password from fields 1 and 2. JoinQueue, GameRestart and unknown signifiers always decode |
| `MessageProcessor.DecodeMove` | TicTacToe_Server/Assets/Scripts/NetworkServer.cs:269-285 | a move is applied exactly when there are at least three fields, field 1 parses as an int and field 2 is one UTF-16 code unit (one character of the Basic Multilingual Plane), with that position and symbol. The message is `Malformed` exactly when it has fewer than two fields, or two with a numeric position; anything else is logged only |
| `MessageProcessor.DecodeEncode` | TicTacToe_Server/Assets/Scripts/ServerMessageProcessor.cs:17-41 | decoding the text a client sends for any command gives that command back, when no field holds `,`, numbers fit in 32 bits and a move's symbol is one UTF-16 code unit |
| `Accounts.RegisterReply` | TicTacToe_Server/Assets/Scripts/NetworkServer.cs:195-204 | the reply is RegisterFailed (`"4"`) exactly when the name is taken and RegisterComplete (`"3"`) exactly when it is not |
| `Accounts.Registered` | TicTacToe_Server/Assets/Scripts/NetworkServer.cs:186-205 | the name is registered afterwards and the old list is an unchanged prefix. The list grows by one exactly when the name was free, the new entry is `(name, password)`, and distinct names stay distinct |
| `Accounts.LoginMatchesReplies` | TicTacToe_Server/Assets/Scripts/NetworkServer.cs:218-234 | the loop over the accounts (`LoginMatches`) sends no more replies than there are accounts, and each reply is LoginComplete or LoginFailed |
| `Accounts.LoginReplies` | TicTacToe_Server/Assets/Scripts/NetworkServer.cs:218-241 | every login is answered, with at most one reply more than there are accounts. When an account has the name, the replies are exactly those of the loop; when none has it, the only reply is LoginFailed (`"2"`) |
| `Accounts.LoginMatchesEmpty` | TicTacToe_Server/Assets/Scripts/NetworkServer.cs:218-241 | the login loop sends nothing exactly when no account has the name, which is when the final LoginFailed is sent |
| `Accounts.LoginWithDistinctNames` | TicTacToe_Server/Assets/Scripts/NetworkServer.cs:218-241 | with distinct names a login sends exactly one reply: LoginComplete iff an account has both the name and the password, LoginFailed otherwise |
| `Accounts.SaveLines` | TicTacToe_Server/Assets/Scripts/NetworkServer.cs:328-331 | one line per account, in list order, each `1,<name>,<password>` |
| `Accounts.AccountLineFields` | TicTacToe_Server/Assets/Scripts/NetworkServer.cs:330 | a line written for an account whose name and password hold no `,` splits into exactly the fields `1`, the name and the password |
| `Accounts.ParseAccountLine` | TicTacToe_Server/Assets/Scripts/NetworkServer.cs:344-352 | a line throws exactly when its first field does not parse as an int, or parses to `1` with fewer than three fields. It is skipped exactly when that field parses to another int. Otherwise it yields the account of fields 1 and 2 |
| `Accounts.LoadAccounts` | TicTacToe_Server/Assets/Scripts/NetworkServer.cs:342-353 | reading the whole file (`LoadParsed` over the parse of each line) yields at most one account per line |
| `Accounts.LoadCompleteIffNoLineThrows` | TicTacToe_Server/Assets/Scripts/NetworkServer.cs:342-353 | the whole file is read exactly when no line throws |
| `Accounts.LoadedAccountsComeFromLines` | TicTacToe_Server/Assets/Scripts/NetworkServer.cs:346-352 | every loaded account comes from a line of tag `1`, in file order (an increasing choice of lines) |
| `Accounts.ParseSavedLine` | TicTacToe_Server/Assets/Scripts/NetworkServer.cs:330-350 | a saved line is read back as the same account when neither field holds `,` |
| `Accounts.LoadSave` | TicTacToe_Server/Assets/Scripts/NetworkServer.cs:324-353 | loading the saved file gives back exactly the account list, completely read, when no name or password holds `,` |
| `Connections.Broadcast` | TicTacToe_Server/Assets/Scripts/NetworkServer.cs:315-322 | one message per table entry, in table order, all with the same text |
| `Connections.Replies` | TicTacToe_Server/Assets/Scripts/NetworkServer.cs:360-375 | one message per text, in order, all to the same recipient |
| `Connections.RemoveAtSwapBack` | TicTacToe_Server/Assets/Scripts/NetworkServer.cs:96 | the table loses exactly one copy of entry `i`; the last entry moves into place `i`, and every other entry keeps its place |
| `Connections.RemoveKeepsCheckedPrefix` | TicTacToe_Server/Assets/Scripts/NetworkServer.cs:94-97 | removing entry `i` keeps the entries the loop has already checked, so they stay created |
| `Connections.RemoveUncreatedKeepsCreated` | TicTacToe_Server/Assets/Scripts/NetworkServer.cs:94-97 | removing an entry that is no longer created keeps every created handle as often as before |
| `Connections.CreatedOnlyCount` | TicTacToe_Server/Assets/Scripts/NetworkServer.cs:92-99 | the created-only filter keeps each created handle as often as it occurs, and no other handle |
| `Connections.PrunedIsCreatedOnly` | TicTacToe_Server/Assets/Scripts/NetworkServer.cs:92-99 | a table of created entries that keeps every created handle of the original is, as a multiset, exactly the created entries of the original |
| `Matchmaking.AsWrittenPairsFirstJoinerWithDefault` | TicTacToe_Server/Assets/Scripts/NetworkServer.cs:246-258 | as written, the first joiner on a fresh server is paired with `default(NetworkConnection)`; as intended it waits in the slot |
| `Matchmaking.JoinQueueAsWritten` | TicTacToe_Server/Assets/Scripts/NetworkServer.cs:246-258 | as written, every join makes a room pairing the slot's handle with the joiner, and leaves the slot `default` |
| `Matchmaking.JoinQueue` | TicTacToe_Server/Assets/Scripts/NetworkServer.cs:244-267 | a room is made exactly when the slot was occupied, pairing occupant then joiner, and the slot is then empty. Otherwise the joiner takes the slot |
| `Matchmaking.JoinsPairInTwos` | TicTacToe_Server/Assets/Scripts/NetworkServer.cs:244-267 | from an empty slot, the first joiner waits, the second makes the pair and empties the slot, and the third waits again |
| `Server.GameRoom.constructor` | TicTacToe_Server/Assets/Scripts/NetworkServer.cs:397-402 | a room holds its two players and no observers |
| `Server.GameRoom.AddObserver` | TicTacToe_Server/Assets/Scripts/NetworkServer.cs:404-407 | the observer list grows by exactly the given connection at the end, duplicates allowed |
| `Server.NetworkServer.constructor` | TicTacToe_Server/Assets/Scripts/NetworkServer.cs:34-58 | the server starts with no connections, no rooms, an empty slot and nothing sent. The accounts are those loaded from the file, if there is one, and all nine cells are blank |
| `Server.NetworkServer.InitializeGameBoard` | TicTacToe_Server/Assets/Scripts/NetworkServer.cs:60-66 | all nine cells are `' '` |
| `Server.NetworkServer.AcceptConnection` | TicTacToe_Server/Assets/Scripts/NetworkServer.cs:152-160 | a handle other than `default` is appended and reported; `default` changes nothing |
| `Server.NetworkServer.HandleDisconnect` | TicTacToe_Server/Assets/Scripts/NetworkServer.cs:141-144 | the entry becomes `default`, no longer created, and nothing else changes |
| `Server.NetworkServer.PruneConnections` | TicTacToe_Server/Assets/Scripts/NetworkServer.cs:92-99 | afterwards every entry is created, and the table is, as a multiset, the created entries from before |
| `Server.NetworkServer.SendMessageToClient` | TicTacToe_Server/Assets/Scripts/NetworkServer.cs:360-375 | exactly one message, to that recipient with that text, is added |
| `Server.NetworkServer.BroadcastToClients` | TicTacToe_Server/Assets/Scripts/NetworkServer.cs:315-322 | exactly one message per table entry is added, in table order |
| `Server.NetworkServer.ProcessRegister` | TicTacToe_Server/Assets/Scripts/NetworkServer.cs:178-207 | the accounts become `Registered(...)`; exactly one reply, RegisterFailed iff the name was taken; the file is rewritten from the new list exactly when the name was free |
| `Server.NetworkServer.SavePlayerAccounts` | TicTacToe_Server/Assets/Scripts/NetworkServer.cs:324-333 | the file becomes one `1,<name>,<password>` line per account, in list order |
| `Server.NetworkServer.LoadPlayerAccounts` | TicTacToe_Server/Assets/Scripts/NetworkServer.cs:335-358 | with no file nothing changes. Otherwise the accounts of the file's lines are appended in file order, up to the first line that throws, and `complete` says whether no line threw |
| `Server.NetworkServer.ProcessLogin` | TicTacToe_Server/Assets/Scripts/NetworkServer.cs:209-242 | the messages sent are one reply per account carrying the name (LoginComplete when the password matches, LoginFailed otherwise), or one LoginFailed when no account has the name. Only `outbox` changes |
| `Server.NetworkServer.ProcessJoinQueue` | TicTacToe_Server/Assets/Scripts/NetworkServer.cs:244-267 | the slot follows `Matchmaking.JoinQueue`. A pairing appends one fresh room (occupant, joiner) whose observers are `[joiner]` and sends `"5,"` to both players and then `"9,"` to the joiner. Otherwise rooms and messages stay as they were |
| `Server.NetworkServer.UpdateGameBoard` | TicTacToe_Server/Assets/Scripts/NetworkServer.cs:295-305 | a position on the board gets the symbol and every other cell is unchanged; an off-board position changes nothing |
| `Server.NetworkServer.BroadcastGameBoard` | TicTacToe_Server/Assets/Scripts/NetworkServer.cs:307-314 | `"6,<position>,<symbol>"` goes to every table entry, in table order |
| `Server.NetworkServer.ProcessMakeMove` | TicTacToe_Server/Assets/Scripts/NetworkServer.cs:274-280 | exactly the named cell (if on the board) gets the symbol, the other cells are unchanged, and the move is broadcast to every table entry even when off the board |
| `Server.NetworkServer.ProcessGameRestart` | TicTacToe_Server/Assets/Scripts/NetworkServer.cs:287-293 | all nine cells are blank and `"7,"` goes to every table entry |
| `Server.NetworkServer.ProcessReceivedMsg` | TicTacToe_Server/Assets/Scripts/NetworkServer.cs:171-176 | the message is decoded by `Decode`; a malformed one changes nothing and sends nothing; otherwise its handler runs as `Handled` states |
| `Server.NetworkServer.HandleCommand` | TicTacToe_Server/Assets/Scripts/ServerMessageProcessor.cs:20-41 | each command has the effect of its handler, the whole new state included. An invalid move or an unknown signifier (QuitGame included) changes nothing and sends nothing. No handler touches the connection table. Only Register changes the accounts or the file, and only JoinQueue changes the slot or the rooms, with the new room and messages of `ProcessJoinQueue` |
| `Server.LoginLoopStep` | TicTacToe_Server/Assets/Scripts/NetworkServer.cs:218-234 | one pass of the login loop sends nothing for another name, LoginComplete or LoginFailed for the name, and afterwards the loop has replied exactly when it had before or the name matched |
| `Server.LoginFinish` | TicTacToe_Server/Assets/Scripts/NetworkServer.cs:235-241 | after the loop its replies stand, or a single LoginFailed is added when it sent none, which together are the login's replies |
| `Server.LoadAdvance` | TicTacToe_Server/Assets/Scripts/NetworkServer.cs:342-353 | after lines that read cleanly, a throwing line ends the reading with what came before, a skipped line adds nothing, and a tag-`1` line adds its account |
| `Server.LoadStopsAtThrow` | TicTacToe_Server/Assets/Scripts/NetworkServer.cs:346-350 | once line `i` throws, the lines after it are not read |

## Left out

- Unity Transport is not modelled: `NetworkDriver`, pipelines, `Bind`/`Listen`, `ScheduleUpdate`, `PopEvent` and `BeginSend`/`EndSend`. An accepted handle, a disconnect event and a received text are parameters of `AcceptConnection`, `HandleDisconnect` and `ProcessReceivedMsg`.
- The `Update` tick is not modelled as one method. Its order is: prune, accept until `default`, then for each created entry pop events until the queue is empty. The model has each step as its own method.
- An exception thrown by a handler ends the rest of that `Update` tick in C#. The model only drops the message.
- The UTF-16 byte encoding and the length framing of messages are not modelled. A message is its text.
- The file system is not modelled (`File.Exists`, `StreamReader`/`StreamWriter`, the data path). The file is `accountFile`, a sequence of lines or none.
- `ReadLine` splits on `\n`, `\r` and `\r\n`, so a name or password holding a line break would be read back as extra lines. The model's file is a sequence of lines, so it does not see this.
- Server.NetworkServer.constructor: in C#, a throwing account line aborts `Start`. The rooms, the board and the message processor are then never created, and every later message fails. The model keeps the accounts read before that line and initialises the rest.
- `Text.ParseInt32` does not model .NET's acceptance of trailing `\0` characters or culture-specific sign symbols. It uses the invariant `-`/`+`.
- The `Debug.Log` output, the key-`A` debug broadcast, and `OnDestroy`/disposal are not modelled.
- Sending to a connection that is no longer created (a `default` entry still in the table) is recorded in `outbox` like any other send. The transport's failure for it is not modelled.
- A .NET `char` is a UTF-16 code unit and a Dafny `char` a Unicode scalar value. A text with an unpaired surrogate cannot be represented. Only the move symbol's `Length == 1` test counts code units (`Text.Utf16Length`); no other length the code reads depends on the difference.

## Findings

| source | as written | input that shows it | evidently intended | confidence | as-written member | corrected member |
|---|---|---|---|---|---|---|
| TicTacToe_Server/Assets/Scripts/NetworkServer.cs:246 | `playerInQueueID == null` on the struct `NetworkConnection` is never true, and line 258 empties the slot with `default(NetworkConnection)` | the first JoinQueue on a fresh server: the joiner is paired with `default(NetworkConnection)` in a new room instead of waiting in the slot | an empty slot (`default`) takes the joiner; an occupied slot is paired and emptied | not executed | `Matchmaking.JoinQueueAsWritten` (shown by `Matchmaking.AsWrittenPairsFirstJoinerWithDefault`) | `Matchmaking.JoinQueue` (used by `Server.NetworkServer.ProcessJoinQueue`) |
