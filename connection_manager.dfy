/**
 * `ConnectionManager`: the registry of one WebSocket per user, the spam
 * guard state and the fan-out of messages to every connection.
 *
 * `active` is `active_connections` in its insertion order, `windows` is
 * `user_messages`, `banUntil` is `user_ban_until` and `tasks` is
 * `background_tasks`. The ghost `outbox` records every transport action in
 * the order it happens. A send on a handle in `dead` raises.
 */
module ConnectionManager {
  import opened Wrappers
  import opened Wire
  import opened Dict
  import opened SpamGuard

  /** The connections that survive a round of sends in which the handles in `dead` failed. */
  function Live(es: seq<(UserId, Socket)>, dead: set<Socket>): (r: seq<(UserId, Socket)>)
    ensures forall u :: HasKey(r, u) ==> HasKey(es, u)
    ensures KeysDistinct(es) ==> KeysDistinct(r)
    ensures KeysDistinct(es) ==> forall u :: HasKey(r, u) <==> HasKey(es, u) && Get(es, u) !in dead
    ensures KeysDistinct(es) ==> forall u :: HasKey(r, u) ==> Get(r, u) == Get(es, u)
  {
    if es == [] then []
    else
      var tail := Live(es[1..], dead);
      assert ([es[0]] + tail)[1..] == tail;
      if es[0].1 in dead then tail else [es[0]] + tail
  }

  /** The users whose handles are in `dead`, in dictionary order: `dead_connections`. */
  function DeadKeys(es: seq<(UserId, Socket)>, dead: set<Socket>): seq<UserId>
  {
    if es == [] then []
    else (if es[0].1 in dead then [es[0].0] else []) + DeadKeys(es[1..], dead)
  }

  /** One send of `env` to each connection, in dictionary order. */
  function Sends(es: seq<(UserId, Socket)>, env: Envelope): (r: seq<Event>)
    ensures |r| == |es|
    ensures forall i :: 0 <= i < |es| ==> r[i] == Send(es[i].1, env)
  {
    if es == [] then [] else [Send(es[0].1, env)] + Sends(es[1..], env)
  }

  /** Only users of the dictionary are collected. */
  lemma {:induction false} DeadKeysPresent(es: seq<(UserId, Socket)>, dead: set<Socket>, u: UserId)
    requires u in DeadKeys(es, dead)
    ensures HasKey(es, u)
  {
    if es[0].0 != u {
      DeadKeysPresent(es[1..], dead, u);
    }
  }

  lemma {:induction false} LiveAppend(a: seq<(UserId, Socket)>, b: seq<(UserId, Socket)>, dead: set<Socket>)
    ensures Live(a + b, dead) == Live(a, dead) + Live(b, dead)
  {
    if a == [] {
      assert a + b == b;
    } else {
      assert (a + b)[1..] == a[1..] + b;
      LiveAppend(a[1..], b, dead);
    }
  }

  lemma {:induction false} DeadKeysAppend(a: seq<(UserId, Socket)>, b: seq<(UserId, Socket)>, dead: set<Socket>)
    ensures DeadKeys(a + b, dead) == DeadKeys(a, dead) + DeadKeys(b, dead)
  {
    if a == [] {
      assert a + b == b;
    } else {
      assert (a + b)[1..] == a[1..] + b;
      DeadKeysAppend(a[1..], b, dead);
    }
  }

  lemma {:induction false} SendsAppend(a: seq<(UserId, Socket)>, b: seq<(UserId, Socket)>, env: Envelope)
    ensures Sends(a + b, env) == Sends(a, env) + Sends(b, env)
  {
    if a == [] {
      assert a + b == b;
    } else {
      assert (a + b)[1..] == a[1..] + b;
      SendsAppend(a[1..], b, env);
    }
  }

  /** Collecting the users whose send failed and then deleting them one by
      one, as `broadcast` does, leaves exactly the live connections. */
  lemma {:induction false} PruneLeavesLive(es: seq<(UserId, Socket)>, dead: set<Socket>)
    requires KeysDistinct(es)
    ensures Without(es, DeadKeys(es, dead)) == Live(es, dead)
  {
    if es != [] {
      var head := if es[0].1 in dead then [es[0].0] else [];
      var rest := DeadKeys(es[1..], dead);
      assert DeadKeys(es, dead) == head + rest;
      assert forall x :: x in head ==> !HasKey(es[1..], x);
      WithoutAbsentKeys(es[1..], head, rest);
      PruneLeavesLive(es[1..], dead);
      if es[0].0 in rest {
        DeadKeysPresent(es[1..], dead, es[0].0);
      }
      assert es[0].0 in head + rest <==> es[0].1 in dead;
    }
  }

  /** One step of a sweep over a snapshot: deleting the user of entry `i`
      after the earlier entries have been pruned. */
  lemma {:induction false} DeleteAtSnapshot(es: seq<(UserId, Socket)>, i: nat, dead: set<Socket>)
    requires KeysDistinct(es) && i < |es| && es[i].1 in dead
    ensures Delete(Live(es[..i], dead) + es[i..], es[i].0) == Live(es[..i + 1], dead) + es[i + 1..]
  {
    PrefixDistinct(es, i);
    SuffixAfter(es, i);
    assert es[i..] == [es[i]] + es[i + 1..];
    DeleteBetween(Live(es[..i], dead), es[i], es[i + 1..]);
    LiveSnocDead(es, i, dead);
  }

  /** Deleting a key that occurs once, between two parts that lack it. */
  lemma DeleteBetween(done: seq<(UserId, Socket)>, e: (UserId, Socket), rest: seq<(UserId, Socket)>)
    requires !HasKey(done, e.0) && !HasKey(rest, e.0)
    ensures Delete(done + ([e] + rest), e.0) == done + rest
  {
    DeleteAbsent(done, e.0);
    DeleteAbsent(rest, e.0);
    DeleteAppend(done, [e] + rest, e.0);
    assert ([e] + rest)[1..] == rest;
  }

  /** A failed entry adds nothing to the live prefix. */
  lemma LiveSnocDead(es: seq<(UserId, Socket)>, i: nat, dead: set<Socket>)
    requires i < |es| && es[i].1 in dead
    ensures Live(es[..i + 1], dead) == Live(es[..i], dead)
  {
    assert es[..i + 1] == es[..i] + [es[i]];
    LiveAppend(es[..i], [es[i]], dead);
    assert Live([es[i]], dead) == [];
  }

  /** The same step when the send to entry `i` succeeded. */
  lemma KeepAtSnapshot(es: seq<(UserId, Socket)>, i: nat, dead: set<Socket>)
    requires i < |es| && es[i].1 !in dead
    ensures Live(es[..i], dead) + es[i..] == Live(es[..i + 1], dead) + es[i + 1..]
  {
    assert es[..i + 1] == es[..i] + [es[i]];
    LiveAppend(es[..i], [es[i]], dead);
    assert es[i..] == [es[i]] + es[i + 1..];
  }

  lemma SendsSnoc(es: seq<(UserId, Socket)>, i: nat, env: Envelope)
    requires i < |es|
    ensures Sends(es[..i + 1], env) == Sends(es[..i], env) + [Send(es[i].1, env)]
  {
    assert es[..i + 1] == es[..i] + [es[i]];
    SendsAppend(es[..i], [es[i]], env);
  }

  lemma {:induction false} PrefixDistinct(es: seq<(UserId, Socket)>, i: nat)
    requires KeysDistinct(es) && i < |es|
    ensures !HasKey(es[..i], es[i].0)
  {
    if i > 0 {
      assert es[1..][..i - 1] == es[..i][1..];
      PrefixDistinct(es[1..], i - 1);
      assert es[1..][i - 1] == es[i];
      HasKeyAppend(es[1..][..i - 1], es[1..][i - 1..], es[0].0);
      assert es[1..] == es[1..][..i - 1] + es[1..][i - 1..];
    }
  }

  lemma {:induction false} SuffixAfter(es: seq<(UserId, Socket)>, i: nat)
    requires KeysDistinct(es) && i < |es|
    ensures !HasKey(es[i + 1..], es[i].0)
  {
    if i > 0 {
      assert es[1..][i..] == es[i + 1..];
      SuffixAfter(es[1..], i - 1);
    }
  }

  /** An `asyncio` task: which loop it runs and whether it was cancelled. */
  datatype Loop = UserCountLoop | CleanupLoop | HeartbeatLoop

  class Task {
    const loop: Loop
    var cancelled: bool

    constructor (loop: Loop)
      ensures this.loop == loop && !cancelled
    {
      this.loop := loop;
      cancelled := false;
    }

    method Cancel()
      modifies this
      ensures cancelled
    {
      cancelled := true;
    }
  }

  /** `if sender_id and username`: both given and neither empty. */
  predicate FromSender(sender: Option<UserId>, username: Option<string>)
  {
    sender.Some? && sender.value != "" && username.Some? && username.value != ""
  }

  /** What the system path broadcasts: the parsed JSON object, or a system
      notice when `json.loads` raised (`payload == None`). */
  function SystemEnvelope(message: string, payload: Option<Envelope>): Envelope
  {
    if payload.Some? then payload.value else System(message)
  }

  class Manager {
    var active: seq<(UserId, Socket)>
    var windows: map<UserId, Window>
    var banUntil: map<UserId, int>
    var tasks: set<Task>
    ghost var outbox: seq<Event>

    ghost predicate Valid()
      reads this
    {
      && KeysDistinct(active)
      && forall u :: u in windows ==> |windows[u]| <= WindowCapacity
    }

    function Sessions(): map<UserId, Socket>
      reads this
    {
      AsMap(active)
    }

    function Guard(): Moderation
      reads this
    {
      Moderation(windows, banUntil)
    }

    constructor ()
      ensures Valid()
      ensures active == [] && windows == map[] && banUntil == map[] && tasks == {} && outbox == []
    {
      active, windows, banUntil, tasks := [], map[], map[], {};
      outbox := [];
    }

    /** `websocket.send_json(env)`; `ok` is false when the send raised. */
    method SendJson(connection: Socket, env: Envelope, dead: set<Socket>) returns (ok: bool)
      modifies this`outbox
      ensures ok <==> connection !in dead
      ensures outbox == old(outbox) + [Send(connection, env)]
    {
      outbox := outbox + [Send(connection, env)];
      ok := connection !in dead;
    }

    /** `disconnect`: removes the user's entry if there is one, else does nothing. */
    method Disconnect(user: UserId)
      requires Valid()
      modifies this`active
      ensures Valid()
      ensures active == Delete(old(active), user)
      ensures Sessions() == old(Sessions()) - {user}
      ensures !HasKey(old(active), user) ==> active == old(active)
    {
      DeleteMeaning(active, user);
      if HasKey(active, user) {
        active := Delete(active, user);
      }
    }

    /** `disconnect_previous_session`: the old socket is told its session
        expired, then closed, then forgotten. A failing send raises before
        the close; `ok` is false then and nothing else happened. */
    method DisconnectPreviousSession(user: UserId, dead: set<Socket>) returns (ok: bool)
      requires Valid()
      modifies this`active, this`outbox
      ensures Valid()
      ensures !HasKey(old(active), user) ==> ok && active == old(active) && outbox == old(outbox)
      ensures HasKey(old(active), user) ==>
                var prev := Get(old(active), user);
                && ok == (prev !in dead)
                && (ok ==> active == Delete(old(active), user)
                           && outbox == old(outbox) + [Send(prev, SessionExpired), Close(prev)])
                && (!ok ==> active == old(active) && outbox == old(outbox) + [Send(prev, SessionExpired)])
    {
      ok := true;
      if HasKey(active, user) {
        var prev := Get(active, user);
        ok := SendJson(prev, SessionExpired, dead);
        if !ok {
          return;
        }
        outbox := outbox + [Close(prev)];
        DeleteMeaning(active, user);
        active := Delete(active, user);
      }
    }

    /** `connect`: accept the new socket, end a previous session of the same
        user, then store the new socket as the user's only connection. */
    method Connect(ws: Socket, user: UserId, dead: set<Socket>) returns (ok: bool)
      requires Valid()
      modifies this`active, this`outbox
      ensures Valid()
      ensures ok ==> Sessions() == old(Sessions())[user := ws]
      ensures ok ==> active == Delete(old(active), user) + [(user, ws)]
      ensures !HasKey(old(active), user) ==> ok && outbox == old(outbox) + [Accept(ws)]
      ensures HasKey(old(active), user) ==>
                var prev := Get(old(active), user);
                && ok == (prev !in dead)
                && (ok ==> outbox == old(outbox) + [Accept(ws), Send(prev, SessionExpired), Close(prev)])
                && (!ok ==> active == old(active) && outbox == old(outbox) + [Accept(ws), Send(prev, SessionExpired)])
    {
      outbox := outbox + [Accept(ws)];
      ok := true;
      DeleteMeaning(active, user);
      if HasKey(active, user) {
        ok := DisconnectPreviousSession(user, dead);
        if !ok {
          return;
        }
      }
      assert active == Delete(old(active), user);
      PutMeaning(active, user, ws);
      active := Put(active, user, ws);
      assert Sessions() == (old(Sessions()) - {user})[user := ws] == old(Sessions())[user := ws];
    }

    /** `is_user_banned`: true while the ban lasts; an elapsed ban is
        deleted and the user's window emptied. */
    method IsUserBanned(user: UserId, now: int) returns (banned: bool)
      requires Valid()
      modifies this`windows, this`banUntil
      ensures Valid()
      ensures banned <==> user in old(banUntil) && now < old(banUntil)[user]
      ensures user in old(banUntil) && now >= old(banUntil)[user] ==>
                banUntil == old(banUntil) - {user} && windows == old(windows)[user := []]
      ensures !(user in old(banUntil) && now >= old(banUntil)[user]) ==>
                banUntil == old(banUntil) && windows == old(windows)
    {
      if user in banUntil {
        if now >= banUntil[user] {
          banUntil := banUntil - {user};
          windows := windows[user := []];
          return false;
        }
        return true;
      }
      return false;
    }

    /** `ban_user`. */
    method BanUser(user: UserId, now: int)
      modifies this`banUntil
      ensures banUntil == old(banUntil)[user := now + BanSeconds]
    {
      banUntil := banUntil[user := now + BanSeconds];
    }

    /** The send loop of `broadcast`: every connection is sent `env` in
        dictionary order; the users whose send raised are collected. */
    method SendToAll(env: Envelope, dead: set<Socket>) returns (deadConnections: seq<UserId>)
      modifies this`outbox
      ensures deadConnections == DeadKeys(active, dead)
      ensures outbox == old(outbox) + Sends(active, env)
    {
      deadConnections := [];
      var i := 0;
      while i < |active|
        invariant 0 <= i <= |active|
        invariant deadConnections == DeadKeys(active[..i], dead)
        invariant outbox == old(outbox) + Sends(active[..i], env)
      {
        var (user, connection) := active[i];
        var ok := SendJson(connection, env, dead);
        if !ok {
          deadConnections := deadConnections + [user];
        }
        assert active[..i + 1] == active[..i] + [active[i]];
        DeadKeysAppend(active[..i], [active[i]], dead);
        SendsAppend(active[..i], [active[i]], env);
        i := i + 1;
      }
      assert active[..i] == active;
    }

    /** The disconnect loop of `broadcast`: the listed users are disconnected in turn. */
    method DisconnectAll(users: seq<UserId>)
      requires Valid()
      modifies this`active
      ensures Valid()
      ensures active == Without(old(active), users)
    {
      WithoutNone(active);
      var j := 0;
      while j < |users|
        invariant 0 <= j <= |users|
        invariant Valid()
        invariant active == Without(old(active), users[..j])
      {
        Disconnect(users[j]);
        assert users[..j + 1] == users[..j] + [users[j]];
        WithoutSnoc(old(active), users[..j], users[j]);
        j := j + 1;
      }
      assert users[..j] == users;
    }

    /** The fan-out at the end of `broadcast`: send to every connection,
        collect the users whose send failed, then disconnect them. */
    method Deliver(env: Envelope, dead: set<Socket>)
      requires Valid()
      modifies this`active, this`outbox
      ensures Valid()
      ensures active == Live(old(active), dead)
      ensures outbox == old(outbox) + Sends(old(active), env)
    {
      var deadConnections := SendToAll(env, dead);
      DisconnectAll(deadConnections);
      PruneLeavesLive(old(active), dead);
    }

    /** `broadcast`. From a sender (`sender_id` and `username` given and
        non-empty) the message passes the spam guard first: a banned or
        spam-triggering message only earns the sender a `chat_banned`
        notice. Otherwise, and always on the system path, the envelope goes
        to every connection and the ones whose send failed are dropped. */
    method Broadcast(message: string, sender: Option<UserId>, username: Option<string>,
                     payload: Option<Envelope>, now: int, dead: set<Socket>)
      requires Valid()
      requires FromSender(sender, username) && !Moderate(Guard(), sender.value, message, now).1.Allowed?
               ==> HasKey(active, sender.value)
      modifies this`active, this`windows, this`banUntil, this`outbox
      ensures Valid()
      ensures BansHaveWindows(old(Guard())) ==> BansHaveWindows(Guard())
      ensures !FromSender(sender, username) ==>
                && Guard() == old(Guard())
                && active == Live(old(active), dead)
                && outbox == old(outbox) + Sends(old(active), SystemEnvelope(message, payload))
      ensures FromSender(sender, username) ==>
                var r := Moderate(old(Guard()), sender.value, message, now);
                && Guard() == r.0
                && (r.1.Allowed? ==>
                      && active == Live(old(active), dead)
                      && outbox == old(outbox) + Sends(old(active), Chat(message, sender.value, username.value, now * 1000)))
                && (r.1.Rejected? ==>
                      && active == old(active)
                      && outbox == old(outbox) + [Send(Get(old(active), sender.value), ChatBanned(r.1.timeLeft))])
                && (r.1.SpamTriggered? ==>
                      && active == old(active)
                      && outbox == old(outbox) + [Send(Get(old(active), sender.value), ChatBanned(BanSeconds))])
    {
      var env: Envelope;
      if FromSender(sender, username) {
        var s := sender.value;
        var banned := IsUserBanned(s, now);
        if banned {
          var timeLeft := banUntil[s] - now;
          var _ := SendJson(Get(active, s), ChatBanned(timeLeft), dead);
          return;
        }
        windows := windows[s := Push(WindowOf(windows, s), Entry(message, now))];
        if IsSpam(windows[s], now) {
          BanUser(s, now);
          var _ := SendJson(Get(active, s), ChatBanned(BanSeconds), dead);
          return;
        }
        env := Chat(message, s, username.value, now * 1000);
      } else {
        env := SystemEnvelope(message, payload);
      }
      Deliver(env, dead);
    }
  }
}
