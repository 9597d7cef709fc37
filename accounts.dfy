/**
 * The account registry the server keeps (`PlayerAccount`, the `playerAccounts` list) as values:
 * what registering and logging in answer, and the line format of the account file that
 * `SavePlayerAccounts` writes and `LoadPlayerAccounts` reads back.
 */
module Accounts {
  import opened Wrappers
  import opened Text
  import opened Signifiers

  datatype Account = Account(name: string, password: string)

  predicate NameInUse(accounts: seq<Account>, name: string)
  {
    exists k :: 0 <= k < |accounts| && accounts[k].name == name
  }

  /** No two accounts share a name, the invariant registration keeps. */
  predicate NamesDistinct(accounts: seq<Account>)
  {
    forall i, j :: 0 <= i < j < |accounts| ==> accounts[i].name != accounts[j].name
  }

  // ---------------------------------------------------------------------------------------
  // Registration

  /** The one reply to a registration: RegisterFailed when the name is taken. */
  function RegisterReply(accounts: seq<Account>, name: string): (reply: string)
    ensures reply == Bare(RegisterFailed) <==> NameInUse(accounts, name)
    ensures reply == Bare(RegisterComplete) <==> !NameInUse(accounts, name)
  {
    RepliesCarryTheirSignifier(RegisterFailed);
    RepliesCarryTheirSignifier(RegisterComplete);
    if NameInUse(accounts, name) then Bare(RegisterFailed) else Bare(RegisterComplete)
  }

  /**
   * The account list after a registration: a taken name leaves it as it was, a fresh one adds
   * exactly one account at the end. Either way the name is registered afterwards, no existing
   * account (and so no stored password) changes, and distinct names stay distinct.
   */
  function Registered(accounts: seq<Account>, name: string, password: string): (r: seq<Account>)
    ensures NameInUse(r, name)
    ensures |accounts| <= |r| <= |accounts| + 1 && r[..|accounts|] == accounts
    ensures |r| == |accounts| + 1 <==> !NameInUse(accounts, name)
    ensures |r| == |accounts| + 1 ==> r[|accounts|] == Account(name, password)
    ensures NamesDistinct(accounts) ==> NamesDistinct(r)
  {
    if NameInUse(accounts, name) then accounts
    else
      var r := accounts + [Account(name, password)];
      assert r[|accounts|].name == name;
      r
  }

  // ---------------------------------------------------------------------------------------
  // Login

  /** The reply `ProcessLogin`'s loop sends for one account: none unless the name matches. */
  function LoginReplyFor(a: Account, name: string, password: string): seq<string>
  {
    if a.name != name then []
    else if a.password == password then [Bare(LoginComplete)]
    else [Bare(LoginFailed)]
  }

  /** The replies the loop sends over the whole list, one per account carrying the name. */
  function LoginMatches(accounts: seq<Account>, name: string, password: string): seq<string>
  {
    if accounts == [] then []
    else
      LoginMatches(accounts[..|accounts| - 1], name, password)
        + LoginReplyFor(accounts[|accounts| - 1], name, password)
  }

  /** Everything a login sends: the loop's replies, or one LoginFailed when no name matched. */
  function LoginReplies(accounts: seq<Account>, name: string, password: string): (r: seq<string>)
    ensures 1 <= |r| <= |accounts| + 1
    ensures NameInUse(accounts, name) ==> r == LoginMatches(accounts, name, password)
    ensures !NameInUse(accounts, name) ==> r == [Bare(LoginFailed)]
  {
    LoginMatchesEmpty(accounts, name, password);
    LoginMatchesReplies(accounts, name, password);
    var matches := LoginMatches(accounts, name, password);
    if matches == [] then [Bare(LoginFailed)] else matches
  }

  lemma LoginStep(accounts: seq<Account>, i: nat, name: string, password: string)
    requires i < |accounts|
    ensures LoginMatches(accounts[..i + 1], name, password) ==
      LoginMatches(accounts[..i], name, password) + LoginReplyFor(accounts[i], name, password)
  {
    assert accounts[..i + 1][..i] == accounts[..i];
  }

  /** The loop sends at most one reply per account, each LoginComplete or LoginFailed. */
  lemma {:induction false} LoginMatchesReplies(accounts: seq<Account>, name: string, password: string)
    ensures var r := LoginMatches(accounts, name, password);
      && |r| <= |accounts|
      && forall k :: 0 <= k < |r| ==> r[k] == Bare(LoginComplete) || r[k] == Bare(LoginFailed)
  {
    if accounts != [] {
      LoginMatchesReplies(accounts[..|accounts| - 1], name, password);
    }
  }

  /** The loop sends nothing exactly when the name is unknown. */
  lemma {:induction false} LoginMatchesEmpty(accounts: seq<Account>, name: string, password: string)
    ensures LoginMatches(accounts, name, password) == [] <==> !NameInUse(accounts, name)
  {
    if accounts != [] {
      var prefix := accounts[..|accounts| - 1];
      LoginMatchesEmpty(prefix, name, password);
      if NameInUse(prefix, name) {
        var k :| 0 <= k < |prefix| && prefix[k].name == name;
        assert accounts[k].name == name;
      }
      if NameInUse(accounts, name) && accounts[|accounts| - 1].name != name {
        var k :| 0 <= k < |accounts| && accounts[k].name == name;
        assert prefix[k].name == name;
      }
    }
  }

  /**
   * With distinct names a login sends exactly one reply: LoginComplete when an account has both
   * that name and that password, LoginFailed otherwise.
   */
  lemma {:induction false} LoginWithDistinctNames(accounts: seq<Account>, name: string, password: string)
    requires NamesDistinct(accounts)
    ensures LoginReplies(accounts, name, password) ==
      [if Account(name, password) in accounts then Bare(LoginComplete) else Bare(LoginFailed)]
  {
    if accounts != [] {
      var prefix := accounts[..|accounts| - 1];
      var last := accounts[|accounts| - 1];
      assert accounts == prefix + [last];
      var matches := LoginMatches(prefix, name, password);
      assert LoginMatches(accounts, name, password) == matches + LoginReplyFor(last, name, password);
      if last.name == name {
        assert NamesDistinct(prefix) && !NameInUse(prefix, name) by {
          forall k | 0 <= k < |prefix| ensures prefix[k].name != name {
            assert accounts[k].name != accounts[|accounts| - 1].name;
          }
        }
        LoginMatchesEmpty(prefix, name, password);
        assert Account(name, password) in accounts <==> last.password == password;
      } else {
        assert NamesDistinct(prefix);
        LoginWithDistinctNames(prefix, name, password);
        assert Account(name, password) in accounts <==> Account(name, password) in prefix;
      }
    }
  }

  // ---------------------------------------------------------------------------------------
  // The account file, one line per account

  /** The record tag that starts every account line. */
  const PlayerAccountInfo: int := 1

  /** `PlayerAccountInfo + "," + name + "," + password` */
  function AccountLine(a: Account): string
  {
    IntToString(PlayerAccountInfo) + "," + a.name + "," + a.password
  }

  /** The line written for an account whose fields hold no `,` splits into `1`, the name and the password. */
  lemma AccountLineFields(a: Account)
    requires ',' !in a.name && ',' !in a.password
    ensures Split(AccountLine(a), ',') == ["1", a.name, a.password]
  {
    assert IntToString(PlayerAccountInfo) == "1";
    SplitThreeFields("1", a.name, a.password, ',');
  }

  /** The lines `SavePlayerAccounts` writes, in list order. */
  function SaveLines(accounts: seq<Account>): (lines: seq<string>)
    ensures |lines| == |accounts|
    ensures forall k :: 0 <= k < |lines| ==> lines[k] == AccountLine(accounts[k])
  {
    if accounts == [] then []
    else SaveLines(accounts[..|accounts| - 1]) + [AccountLine(accounts[|accounts| - 1])]
  }

  /** What `LoadPlayerAccounts` makes of one line. */
  datatype LineParse =
    | Throws      // `int.Parse(csv[0])` fails, or a `1` line lacks `csv[1]` or `csv[2]`
    | Skipped     // a record of another kind
    | Parsed(account: Account)

  function ParseAccountLine(line: string): (r: LineParse)
    ensures var csv := Split(line, ','); var tag := ParseInt32(csv[0]);
      && (r.Throws? <==> tag.None? || (tag == Some(PlayerAccountInfo) && |csv| < 3))
      && (r.Skipped? <==> tag.Some? && tag.value != PlayerAccountInfo)
      && (r.Parsed? ==> tag == Some(PlayerAccountInfo) && |csv| >= 3 && r.account == Account(csv[1], csv[2]))
  {
    var csv := Split(line, ',');
    match ParseInt32(csv[0])
    case None => Throws
    case Some(signifier) =>
      if signifier != PlayerAccountInfo then Skipped
      else if |csv| < 3 then Throws
      else Parsed(Account(csv[1], csv[2]))
  }

  /** Each line of the file as `LoadPlayerAccounts` reads it. */
  function ParseLines(lines: seq<string>): (parses: seq<LineParse>)
    ensures |parses| == |lines|
  {
    seq(|lines|, j requires 0 <= j < |lines| => ParseAccountLine(lines[j]))
  }

  /** Reading the first `i` lines parses them as reading the whole file does. */
  lemma ParseLinesPrefix(lines: seq<string>, i: nat)
    requires i <= |lines|
    ensures ParseLines(lines)[..i] == ParseLines(lines[..i])
    ensures i < |lines| ==> ParseLines(lines)[i] == ParseAccountLine(lines[i])
  {
  }

  /**
   * The accounts read from the file, and whether every line was read: the first line that throws
   * ends the reading, and the accounts read before it stay loaded.
   */
  datatype Loaded = Loaded(accounts: seq<Account>, complete: bool)

  /** Reading one more line: nothing more once a line has thrown. */
  function LoadNext(previous: Loaded, p: LineParse): (r: Loaded)
  {
    if !previous.complete then previous
    else match p
      case Throws => Loaded(previous.accounts, false)
      case Skipped => previous
      case Parsed(a) => Loaded(previous.accounts + [a], true)
  }

  function LoadParsed(parses: seq<LineParse>): (r: Loaded)
    ensures |r.accounts| <= |parses|
  {
    if parses == [] then Loaded([], true)
    else LoadNext(LoadParsed(parses[..|parses| - 1]), parses[|parses| - 1])
  }

  lemma LoadParsedStep(parses: seq<LineParse>, i: nat)
    requires i < |parses|
    ensures LoadParsed(parses[..i + 1]) == LoadNext(LoadParsed(parses[..i]), parses[i])
  {
    assert parses[..i + 1][..i] == parses[..i];
  }

  /** What `LoadPlayerAccounts` reads from the whole file: at most one account per line. */
  function LoadAccounts(lines: seq<string>): (r: Loaded)
    ensures |r.accounts| <= |lines|
  {
    LoadParsed(ParseLines(lines))
  }

  /** Reading reaches the end of the file exactly when no line of it throws. */
  lemma {:induction false} LoadCompleteIffNoLineThrows(parses: seq<LineParse>)
    ensures LoadParsed(parses).complete <==> forall j :: 0 <= j < |parses| ==> !parses[j].Throws?
  {
    if parses != [] {
      var prefix := parses[..|parses| - 1];
      LoadCompleteIffNoLineThrows(prefix);
      assert forall j :: 0 <= j < |prefix| ==> prefix[j] == parses[j];
    }
  }

  /**
   * `f` picks, in increasing order, the lines whose parses are exactly `accounts`: line `f[k]`
   * was read as `accounts[k]`.
   */
  ghost predicate PicksLines(f: seq<nat>, accounts: seq<Account>, parses: seq<LineParse>)
  {
    && |f| == |accounts|
    && (forall k :: 0 <= k < |f| ==> f[k] < |parses| && parses[f[k]] == Parsed(accounts[k]))
    && (forall k, l :: 0 <= k < l < |f| ==> f[k] < f[l])
  }

  /** Every loaded account is the account of some line whose record tag is `1`, in file order. */
  lemma {:induction false} LoadedAccountsComeFromLines(parses: seq<LineParse>)
    ensures exists f: seq<nat> :: PicksLines(f, LoadParsed(parses).accounts, parses)
  {
    if parses == [] {
      assert PicksLines([], LoadParsed(parses).accounts, parses);
    } else {
      var n := |parses| - 1;
      var prefix := parses[..n];
      var previous := LoadParsed(prefix);
      LoadedAccountsComeFromLines(prefix);
      var f: seq<nat> :| PicksLines(f, previous.accounts, prefix);
      assert forall k :: 0 <= k < |f| ==> parses[f[k]] == prefix[f[k]];
      assert PicksLines(f, previous.accounts, parses);
      if previous.complete && parses[n].Parsed? {
        var accounts := previous.accounts + [parses[n].account];
        assert LoadParsed(parses).accounts == accounts;
        assert PicksLines(f + [n], accounts, parses);
      } else {
        assert LoadParsed(parses).accounts == previous.accounts;
      }
    }
  }

  /** A saved account line is read back as the same account, when neither field holds a `,`. */
  lemma ParseSavedLine(a: Account)
    requires ',' !in a.name && ',' !in a.password
    ensures ParseAccountLine(AccountLine(a)) == Parsed(a)
  {
    AccountLineFields(a);
    ParseIntToString(PlayerAccountInfo);
  }

  lemma {:induction false} LoadSavedParses(accounts: seq<Account>, parses: seq<LineParse>)
    requires |parses| == |accounts|
    requires forall k :: 0 <= k < |accounts| ==> parses[k] == Parsed(accounts[k])
    ensures LoadParsed(parses) == Loaded(accounts, true)
  {
    if accounts != [] {
      var n := |accounts| - 1;
      LoadSavedParses(accounts[..n], parses[..n]);
      assert accounts[..n] + [accounts[n]] == accounts;
    }
  }

  /** Loading the saved file gives back the account list, when no name or password holds a `,`. */
  lemma {:induction false} LoadSave(accounts: seq<Account>)
    requires forall k :: 0 <= k < |accounts| ==> ',' !in accounts[k].name && ',' !in accounts[k].password
    ensures LoadAccounts(SaveLines(accounts)) == Loaded(accounts, true)
  {
    var parses := ParseLines(SaveLines(accounts));
    forall k | 0 <= k < |accounts| ensures parses[k] == Parsed(accounts[k]) {
      ParseSavedLine(accounts[k]);
    }
    LoadSavedParses(accounts, parses);
  }
}
