/**
 * `KafkaUserManager`: an in-memory table of users keyed by username, filled
 * by replaying the `user` topic and extended by registration, which writes
 * the new record to the topic before committing it to the table.
 *
 * The password hash (SHA-256, hex digest) is an uninterpreted function given
 * to the constructor; the fresh id (`uuid4`) and whether the producer's send
 * succeeded are inputs of `RegisterUser`.
 */
module KafkaUser {
  import opened Wrappers

  /** The JSON object stored per user and written to the topic. */
  datatype UserRecord = UserRecord(username: string, password: string, id: string)

  /** The `(success, message)` pairs the methods return. */
  datatype Reply = Reply(ok: bool, text: string)

  const UsernameTaken := "Username already exists"
  const Registered := "User registered successfully"
  const RegisterFailed := "Error registering user"
  const BadCredentials := "Invalid username or password"

  /** The table after consuming `records` in order. A record is assumed to
      be a complete user object; `None` stands for a message on which
      `json.loads` or the `username` lookup raises: the exception ends
      `load_users`, so nothing after it is applied. Entries are only added
      or replaced, never removed, and every applied record's username is in
      the table. */
  function Replay(users: map<string, UserRecord>, records: seq<Option<UserRecord>>): (r: map<string, UserRecord>)
    ensures users.Keys <= r.Keys
    ensures forall i :: 0 <= i < Readable(records) ==> records[i].value.username in r
    decreases records
  {
    if records == [] || records[0].None? then users
    else
      var r := Replay(users[records[0].value.username := records[0].value], records[1..]);
      assert forall i :: 1 <= i < Readable(records) ==> records[i] == records[1..][i - 1];
      r
  }

  /** How many records `load_users` applies: those before the first undecodable one. */
  function Readable(records: seq<Option<UserRecord>>): (n: nat)
    ensures n <= |records|
    ensures forall i :: 0 <= i < n ==> records[i].Some?
    ensures n < |records| ==> records[n].None?
  {
    if records == [] || records[0].None? then 0 else 1 + Readable(records[1..])
  }

  /** A username that no readable record carries keeps its entry, or its absence. */
  lemma {:induction false} ReplayKeepsOthers(users: map<string, UserRecord>, records: seq<Option<UserRecord>>, name: string)
    requires forall i :: 0 <= i < Readable(records) ==> records[i].value.username != name
    ensures name in Replay(users, records) <==> name in users
    ensures name in users ==> Replay(users, records)[name] == users[name]
    decreases records
  {
    if records != [] && records[0].Some? {
      var rest := records[1..];
      forall i | 0 <= i < Readable(rest) ensures rest[i].value.username != name {
        assert rest[i] == records[i + 1];
      }
      ReplayKeepsOthers(users[records[0].value.username := records[0].value], rest, name);
    }
  }

  /** The last readable record that carries a username is the one the table keeps. */
  lemma {:induction false} ReplayLastWins(users: map<string, UserRecord>, records: seq<Option<UserRecord>>, name: string, i: nat)
    requires i < Readable(records) && records[i].value.username == name
    requires forall j :: i < j < Readable(records) ==> records[j].value.username != name
    ensures name in Replay(users, records) && Replay(users, records)[name] == records[i].value
    decreases records
  {
    var rec := records[0].value;
    var rest := records[1..];
    var next := users[rec.username := rec];
    assert Replay(users, records) == Replay(next, rest);
    if i == 0 {
      forall j | 0 <= j < Readable(rest) ensures rest[j].value.username != name {
        assert rest[j] == records[j + 1];
      }
      ReplayKeepsOthers(next, rest, name);
    } else {
      assert rest[i - 1] == records[i];
      forall j | i - 1 < j < Readable(rest) ensures rest[j].value.username != name {
        assert rest[j] == records[j + 1];
      }
      ReplayLastWins(next, rest, name, i - 1);
    }
  }

  class UserManager {
    var users: map<string, UserRecord>
    /** The records this manager wrote to the topic. */
    ghost var produced: seq<UserRecord>
    const hash: string -> string

    constructor (hash: string -> string)
      ensures users == map[] && produced == [] && this.hash == hash
    {
      users := map[];
      produced := [];
      this.hash := hash;
    }

    /** `login_user`: the stored hash must equal the hash of the password given. */
    function Login(username: string, password: string): (r: Reply)
      reads this
      ensures r.ok <==> username in users && users[username].password == hash(password)
      ensures r.ok ==> r.text == users[username].id
      ensures !r.ok ==> r.text == BadCredentials
    {
      if username !in users || users[username].password != hash(password) then Reply(false, BadCredentials)
      else Reply(true, users[username].id)
    }

    /** `register_user`. A taken username is refused; otherwise the new
        record is sent to the topic and only a successful send adds it. */
    method RegisterUser(username: string, password: string, id: string, sendOk: bool) returns (r: Reply)
      modifies this`users, this`produced
      ensures username in old(users) ==> r == Reply(false, UsernameTaken) && users == old(users) && produced == old(produced)
      ensures username !in old(users) && !sendOk ==>
                r == Reply(false, RegisterFailed) && users == old(users) && produced == old(produced)
      ensures username !in old(users) && sendOk ==>
                var rec := UserRecord(username, hash(password), id);
                && r == Reply(true, Registered)
                && users == old(users)[username := rec]
                && produced == old(produced) + [rec]
      ensures r.ok ==> Login(username, password) == Reply(true, id)
    {
      if username in users {
        return Reply(false, UsernameTaken);
      }
      var userData := UserRecord(username, hash(password), id);
      if !sendOk {
        return Reply(false, RegisterFailed);
      }
      produced := produced + [userData];
      users := users[username := userData];
      return Reply(true, Registered);
    }

    /** `load_users`: apply the consumed records in order, each one
        replacing the entry of its username, until one raises. */
    method LoadUsers(records: seq<Option<UserRecord>>)
      modifies this`users
      ensures users == Replay(old(users), records)
    {
      var i := 0;
      while i < |records|
        invariant 0 <= i <= |records|
        invariant Replay(users, records[i..]) == Replay(old(users), records)
      {
        if records[i].None? {
          break;
        }
        assert records[i..][1..] == records[i + 1..];
        users := users[records[i].value.username := records[i].value];
        i := i + 1;
      }
    }
  }
}
