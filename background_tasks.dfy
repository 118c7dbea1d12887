/**
 * One iteration of each periodic loop the server runs beside the request
 * path, and the start and stop of the set of tasks that run them. The
 * `while True` / `asyncio.sleep` scheduling around each iteration is not
 * part of this model.
 */
module BackgroundTasks {
  import opened Wrappers
  import opened Wire
  import opened Dict
  import opened SpamGuard
  import opened ConnectionManager

  /** A window is dropped by the cleanup sweep when this many seconds passed since its newest entry. */
  const RetentionSeconds: int := 3600

  /** The cleanup sweep's test: an empty window, or one whose newest entry is over an hour old. */
  predicate Idle(w: Window, now: int)
  {
    |w| == 0 || now - w[|w| - 1].time > RetentionSeconds
  }

  /** One iteration of `periodic_user_count_update`: the number of
      connections, sent to every connection through the system path of
      `broadcast` (no ban or spam check); failed connections are dropped.
      JSON is not modelled: `text` stands for what `json.dumps` makes of the
      count object, and its decoding is passed along as the payload. */
  method PeriodicUserCountUpdate(m: Manager, text: string, now: int, dead: set<Socket>)
    requires m.Valid()
    modifies m`active, m`windows, m`banUntil, m`outbox
    ensures m.Valid()
    ensures m.windows == old(m.windows) && m.banUntil == old(m.banUntil)
    ensures m.active == Live(old(m.active), dead)
    ensures m.outbox == old(m.outbox) + Sends(old(m.active), UserCount(|old(m.Sessions())|))
  {
    var count := |m.active|;
    SizeOfMap(m.active);
    m.Broadcast(text, None, None, Some(UserCount(count)), now, dead);
  }

  /** One iteration of `cleanup_old_data`. Every user that had a window when
      the sweep began is visited once: an idle window is deleted, and the
      user's ban is deleted whether or not it has elapsed. */
  method CleanupOldData(m: Manager, now: int)
    requires m.Valid()
    modifies m`windows, m`banUntil
    ensures m.Valid()
    ensures m.windows == map u | u in old(m.windows) && !Idle(old(m.windows)[u], now) :: old(m.windows)[u]
    ensures m.banUntil == old(m.banUntil) - old(m.windows).Keys
    ensures BansHaveWindows(old(m.Guard())) ==> m.banUntil == map[]
  {
    ghost var windows0, bans0 := m.windows, m.banUntil;
    var pending := m.windows.Keys;
    ghost var visited: set<UserId> := {};
    while pending != {}
      invariant pending !! visited && pending + visited == windows0.Keys
      invariant m.windows == map u | u in windows0 && (u in pending || !Idle(windows0[u], now)) :: windows0[u]
      invariant m.banUntil == bans0 - visited
      decreases pending
    {
      var user :| user in pending;
      if |m.windows[user]| == 0 || now - m.windows[user][|m.windows[user]| - 1].time > RetentionSeconds {
        m.windows := m.windows - {user};
      }
      if user in m.banUntil {
        m.banUntil := m.banUntil - {user};
      }
      pending := pending - {user};
      visited := visited + {user};
    }
  }

  /** One iteration of `check_connections`: a ping to every connection of a
      snapshot taken first; a user whose ping failed is disconnected at once. */
  method CheckConnections(m: Manager, dead: set<Socket>)
    requires m.Valid()
    modifies m`active, m`outbox
    ensures m.Valid()
    ensures m.active == Live(old(m.active), dead)
    ensures m.outbox == old(m.outbox) + Sends(old(m.active), Ping)
  {
    var snapshot := m.active;
    for i := 0 to |snapshot|
      invariant m.Valid()
      invariant m.active == Live(snapshot[..i], dead) + snapshot[i..]
      invariant m.outbox == old(m.outbox) + Sends(snapshot[..i], Ping)
    {
      var (user, connection) := snapshot[i];
      var ok := m.SendJson(connection, Ping, dead);
      SendsSnoc(snapshot, i, Ping);
      if !ok {
        DeleteAtSnapshot(snapshot, i, dead);
        m.Disconnect(user);
      } else {
        KeepAtSnapshot(snapshot, i, dead);
      }
    }
    assert snapshot[..|snapshot|] == snapshot;
  }

  /** `start_background_tasks`: three new tasks, one per loop, join the set. */
  method StartBackgroundTasks(m: Manager)
    modifies m`tasks
    ensures old(m.tasks) <= m.tasks && |m.tasks| == |old(m.tasks)| + 3
    ensures forall t :: t in m.tasks - old(m.tasks) ==> fresh(t) && !t.cancelled
    ensures (set t | t in m.tasks - old(m.tasks) :: t.loop) == {UserCountLoop, CleanupLoop, HeartbeatLoop}
  {
    var userCount := new Task(UserCountLoop);
    var cleanup := new Task(CleanupLoop);
    var heartbeat := new Task(HeartbeatLoop);
    m.tasks := m.tasks + {userCount} + {cleanup} + {heartbeat};
    assert m.tasks - old(m.tasks) == {userCount, cleanup, heartbeat};
  }

  /** `stop_background_tasks`: every task in the set is cancelled, then the set is emptied. */
  method StopBackgroundTasks(m: Manager)
    modifies m`tasks, m.tasks
    ensures m.tasks == {}
    ensures forall t :: t in old(m.tasks) ==> t.cancelled
  {
    var pending := m.tasks;
    while pending != {}
      invariant pending <= m.tasks == old(m.tasks)
      invariant forall t :: t in old(m.tasks) - pending ==> t.cancelled
      decreases pending
    {
      var task :| task in pending;
      task.Cancel();
      pending := pending - {task};
    }
    m.tasks := {};
  }
}
