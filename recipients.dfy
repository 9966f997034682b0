/**
  The recipient directory: the in-memory map from access token to chat
  identity (server.js `users`), filled from stored rows at startup
  (`loadUsers`) and extended when a chat registers with the bot (the
  `message` handler).
*/
module Recipients {
  import opened Wrappers

  /** What the directory holds per token. A chat without a Telegram username has none. */
  datatype Entry = Entry(chatId: int, username: Option<string>)

  /** One stored record, as `storeUser` writes it and `loadUsers` reads it back. */
  datatype Row = Row(token: string, chatId: int, username: Option<string>)

  /** One outgoing Telegram message; `markdown` is the `parse_mode: 'markdown'` option. */
  datatype Send = Send(chatId: int, text: string, markdown: bool)

  function EntryOf(row: Row): Entry {
    Entry(row.chatId, row.username)
  }

  // ---------------------------------------------------------------------------
  // Loading stored rows

  /** The directory after writing each row's entry under its token, first row first. */
  function Overlay(users: map<string, Entry>, rows: seq<Row>): map<string, Entry> {
    if |rows| == 0 then users
    else
      var last := rows[|rows| - 1];
      Overlay(users, rows[..|rows| - 1])[last.token := EntryOf(last)]
  }

  /** Some row writes under `token`. */
  predicate Names(rows: seq<Row>, token: string) {
    exists j :: 0 <= j < |rows| && rows[j].token == token
  }

  /** A key no row names keeps its presence and its value. */
  lemma {:induction false} OverlayKeepsUnnamed(users: map<string, Entry>, rows: seq<Row>, token: string)
    requires !Names(rows, token)
    ensures token in Overlay(users, rows) <==> token in users
    ensures token in users ==> Overlay(users, rows)[token] == users[token]
  {
    if |rows| > 0 {
      var init := rows[..|rows| - 1];
      assert !Names(init, token) by {
        forall j | 0 <= j < |init| ensures init[j].token != token {
          assert init[j] == rows[j];
        }
      }
      OverlayKeepsUnnamed(users, init, token);
    }
  }

  /** The last row naming a token decides its entry: a later row overwrites an earlier one. */
  lemma {:induction false} OverlayLastRowWins(users: map<string, Entry>, rows: seq<Row>, j: nat)
    requires j < |rows|
    requires forall k :: j < k < |rows| ==> rows[k].token != rows[j].token
    ensures rows[j].token in Overlay(users, rows)
    ensures Overlay(users, rows)[rows[j].token] == EntryOf(rows[j])
  {
    if j < |rows| - 1 {
      var init := rows[..|rows| - 1];
      assert init[j] == rows[j];
      forall k | j < k < |init| ensures init[k].token != init[j].token {
        assert init[k] == rows[k];
      }
      OverlayLastRowWins(users, init, j);
    }
  }

  /** The keys after loading are the old keys and the tokens of the rows. */
  lemma {:induction false} OverlayKeys(users: map<string, Entry>, rows: seq<Row>)
    ensures Overlay(users, rows).Keys == users.Keys + set j | 0 <= j < |rows| :: rows[j].token
  {
    if |rows| > 0 {
      var init := rows[..|rows| - 1];
      OverlayKeys(users, init);
      var tokens := set j | 0 <= j < |rows| :: rows[j].token;
      var initTokens := set j | 0 <= j < |init| :: init[j].token;
      assert tokens == initTokens + {rows[|rows| - 1].token} by {
        forall t | t in tokens ensures t in initTokens + {rows[|rows| - 1].token} {
          var j :| 0 <= j < |rows| && rows[j].token == t;
          if j < |init| {
            assert init[j] == rows[j];
          }
        }
        forall t | t in initTokens ensures t in tokens {
          var j :| 0 <= j < |init| && init[j].token == t;
          assert rows[j] == init[j];
        }
      }
    }
  }

  // ---------------------------------------------------------------------------
  // Registration

  /**
    Whether an entry belongs to a sender with the given username. A sender
    without a username matches nothing (see Findings: the comparison at
    line 249 also matches two absent usernames).
  */
  predicate Matches(e: Entry, username: Option<string>) {
    username.Some? && e.username == username
  }

  /** Line 249 as written: JavaScript's `===` also holds between two `undefined` usernames. */
  predicate MatchesAsWritten(e: Entry, username: Option<string>) {
    e.username == username
  }

  predicate HasMatch(users: map<string, Entry>, username: Option<string>) {
    exists t :: t in users && Matches(users[t], username)
  }

  /**
    The `for…in` scan of the registration handler: some token whose entry
    carries the sender's username, or none when no entry does. Which of several
    matching tokens comes first in JavaScript's key order is not modelled.
  */
  method FindToken(users: map<string, Entry>, username: Option<string>) returns (found: Option<string>)
    ensures found.Some? ==> found.value in users && Matches(users[found.value], username)
    ensures found.Some? ==> username.Some? && users[found.value].username == username
    ensures found.None? <==> !HasMatch(users, username)
    ensures username.None? ==> found.None?
  {
    var remaining := users.Keys;
    while remaining != {}
      invariant remaining <= users.Keys
      invariant forall t :: t in users && t !in remaining ==> !Matches(users[t], username)
      decreases remaining
    {
      var t :| t in remaining;
      if Matches(users[t], username) {
        return Some(t);
      }
      remaining := remaining - {t};
    }
    return None;
  }

  /** `token` is a key of the directory whose stored username is strictly equal to the sender's. */
  predicate KeyMatchesAsWritten(users: map<string, Entry>, token: string, username: Option<string>) {
    token in users && MatchesAsWritten(users[token], username)
  }

  /**
    The `for…in` scan of lines 248-253 as written, comparing usernames with
    `===`. `keys` is the order in which `for…in` visits the directory's keys;
    the scan returns the first of them whose stored username equals the
    sender's, absent usernames included, or none when no entry's does.
  */
  method FindTokenAsWritten(users: map<string, Entry>, keys: seq<string>, username: Option<string>)
      returns (found: Option<string>)
    requires forall t :: t in users ==> t in keys
    ensures found.Some? ==> found.value in users && users[found.value].username == username
    ensures found.Some? ==>
              exists i :: 0 <= i < |keys| && keys[i] == found.value
                && forall j :: 0 <= j < i ==> !KeyMatchesAsWritten(users, keys[j], username)
    ensures found.None? <==> forall t :: t in users ==> users[t].username != username
  {
    for i := 0 to |keys|
      invariant forall j :: 0 <= j < i ==> !KeyMatchesAsWritten(users, keys[j], username)
    {
      if KeyMatchesAsWritten(users, keys[i], username) {
        return Some(keys[i]);
      }
    }
    return None;
  }

  /**
    Chats 1 and 3 have no username and are stored in that order; chat 2, also
    without a username, writes to the bot. The scan as written hands chat 2
    the token of chat 1, the first in key order; the corrected scan finds
    nothing, so chat 2 is registered anew.
  */
  method UnnamedSenderGetsForeignToken() returns (asWritten: Option<string>, corrected: Option<string>)
    ensures asWritten == Some("tokenOfChat1")
    ensures asWritten.Some?
              && map["tokenOfChat1" := Entry(1, None), "tokenOfChat3" := Entry(3, None)][asWritten.value].chatId != 2
    ensures corrected == None
  {
    var users := map["tokenOfChat1" := Entry(1, None), "tokenOfChat3" := Entry(3, None)];
    var keys := ["tokenOfChat1", "tokenOfChat3"];
    assert KeyMatchesAsWritten(users, keys[0], None);
    asWritten := FindTokenAsWritten(users, keys, None);
    corrected := FindToken(users, None);
  }

  /** The reply to a chat that already holds a token. */
  function WelcomeBack(chatId: int, token: string): Send {
    Send(chatId, "Welcome back! Your access token is \n" + token, false)
  }

  /** The reply to a chat that was just added. */
  function Congrats(chatId: int, token: string): Send {
    Send(chatId, "Congrats! You are now added to the bot. Use the token \n" + token + "\n to authenticate.", false)
  }

  /** After a sender with a username is added, a second registration finds it: issuance is idempotent. */
  lemma RegistrationIsIdempotent(users: map<string, Entry>, token: string, chatId: int, username: Option<string>)
    requires username.Some?
    ensures HasMatch(users[token := Entry(chatId, username)], username)
  {
    assert Matches(users[token := Entry(chatId, username)][token], username);
  }

  /** The process-wide directory `users`, keyed by access token. */
  class Directory {
    var users: map<string, Entry>

    /** The directory starts empty. */
    constructor ()
      ensures users == map[]
    {
      users := map[];
    }

    /**
      The `message` handler. `newToken` stands for `randomstring.generate()`;
      `stored` is the record handed to `storeUser` (lines 23-31 copy the
      token, chat id and username into it), `reply` the message sent back and
      `token` the token it names. Loading `stored` back with `Overlay` writes
      the same entry again, as `OverlayLastRowWins` shows for any row.
    */
    method Register(chatId: int, username: Option<string>, newToken: string)
        returns (token: string, reply: Send, stored: Option<Row>)
      modifies this
      ensures stored.None? <==> HasMatch(old(users), username)
      ensures stored.None? ==>
        && token in old(users) && Matches(old(users)[token], username)
        && users == old(users)
        && reply == WelcomeBack(chatId, token)
      ensures stored.Some? ==>
        && token == newToken
        && stored.value == Row(newToken, chatId, username)
        && users == old(users)[newToken := Entry(chatId, username)]
        && reply == Congrats(chatId, newToken)
    {
      var found := FindToken(users, username);
      if found.Some? {
        token := found.value;
        reply := WelcomeBack(chatId, token);
        stored := None;
        return;
      }
      token := newToken;
      users := users[token := Entry(chatId, username)];
      stored := Some(Row(token, chatId, username));
      reply := Congrats(chatId, token);
    }

    /**
      The row loop of `loadUsers`: rows 0 to totalRows - 1, each written under
      its token. When `totalRows` exceeds the rows present, reading the
      missing row throws; `completed` is then false and the rows before it
      have been applied.
    */
    method LoadRows(rows: seq<Row>, totalRows: int) returns (completed: bool)
      modifies this
      ensures completed <==> totalRows <= |rows|
      ensures var n := if totalRows < 0 then 0 else if totalRows < |rows| then totalRows else |rows|;
              users == Overlay(old(users), rows[..n])
    {
      var i := 0;
      while i < totalRows
        invariant 0 <= i <= |rows|
        invariant i <= totalRows || i == 0
        invariant users == Overlay(old(users), rows[..i])
      {
        if i == |rows| {
          return false;
        }
        assert rows[..i + 1][..i] == rows[..i];
        users := users[rows[i].token := EntryOf(rows[i])];
        i := i + 1;
      }
      return true;
    }
  }
}
