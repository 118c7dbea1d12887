/**
 * The moderation rules of the chat server: every sender has a window of its
 * most recent messages (a `deque(maxlen=4)` of text and time pairs), and a
 * sender who sends four identical messages within five seconds is banned
 * for twenty seconds. Time is a whole number of seconds, passed in as `now`.
 *
 * `Moderate` is the specification of the sender path of
 * `ConnectionManager.broadcast`: the banned check with its lazy expiry, the
 * append to the window, the spam test and the ban, in that order.
 */
module SpamGuard {
  import opened Wire

  /** `deque(maxlen=4)`. */
  const WindowCapacity: nat := 4
  /** `spam_threshold`: how many entries a spam run needs. */
  const SpamThreshold: nat := 4
  /** `spam_window`: the largest span, in seconds, of a spam run. */
  const SpamWindow: int := 5
  /** How long a ban lasts, in seconds. */
  const BanSeconds: int := 20

  datatype Entry = Entry(text: string, time: int)

  /** Oldest entry first. */
  type Window = seq<Entry>

  /** `append` on a bounded deque: a full window drops its oldest entry. */
  function Push(w: Window, e: Entry): (r: Window)
    ensures |r| == if |w| < WindowCapacity then |w| + 1 else WindowCapacity
    ensures r[|r| - 1] == e
    ensures forall i :: 0 <= i < |r| - 1 ==> r[i] == w[|w| - (|r| - 1) + i]
  {
    if |w| < WindowCapacity then w + [e] else w[|w| - WindowCapacity + 1..] + [e]
  }

  /** `is_spam`: a full run whose oldest entry is recent and whose texts all
      agree; the contract says it with every pair of entries. */
  predicate IsSpam(w: Window, now: int)
    ensures IsSpam(w, now) <==>
              && |w| >= SpamThreshold && now - w[0].time <= SpamWindow
              && forall i, j :: 0 <= i < j < |w| ==> w[i].text == w[j].text
  {
    |w| >= SpamThreshold
    && now - w[0].time <= SpamWindow
    && forall i :: 0 <= i < |w| ==> w[i].text == w[0].text
  }

  /** A `defaultdict(lambda: deque(maxlen=4))` lookup: an absent sender has an empty window. */
  function WindowOf(windows: map<UserId, Window>, u: UserId): Window
  {
    if u in windows then windows[u] else []
  }

  /** The two maps the moderation rules read and write. */
  datatype Moderation = Moderation(windows: map<UserId, Window>, banUntil: map<UserId, int>)

  datatype Verdict =
    | Allowed
      /** The sender is banned; `timeLeft` seconds of the ban remain. */
    | Rejected(timeLeft: int)
      /** This message completed a spam run and started a ban. */
    | SpamTriggered

  /** Every ban has a window: bans are only set right after an append. */
  predicate BansHaveWindows(g: Moderation)
  {
    g.banUntil.Keys <= g.windows.Keys
  }

  /** One message `text` from sender `s` at time `now`. */
  function Moderate(g: Moderation, s: UserId, text: string, now: int): (r: (Moderation, Verdict))
    ensures r.1.Rejected? <==> s in g.banUntil && now < g.banUntil[s]
    ensures r.1.Rejected? ==> r.0 == g && r.1.timeLeft == g.banUntil[s] - now && r.1.timeLeft > 0
    ensures !r.1.Rejected? ==>
              && s in r.0.windows
              && |r.0.windows[s]| > 0
              && r.0.windows[s][|r.0.windows[s]| - 1] == Entry(text, now)
    ensures !r.1.Rejected? ==>
              r.0.windows[s] == Push(if s in g.banUntil then [] else WindowOf(g.windows, s), Entry(text, now))
    ensures !r.1.Rejected? && s in g.banUntil ==> r.0.windows[s] == [Entry(text, now)]
    ensures r.1.SpamTriggered? <==> !r.1.Rejected? && IsSpam(r.0.windows[s], now)
    ensures r.1.SpamTriggered? ==> r.0.banUntil == g.banUntil[s := now + BanSeconds]
    ensures r.1.Allowed? ==> r.0.banUntil == g.banUntil - {s}
    ensures forall u :: u != s ==> WindowOf(r.0.windows, u) == WindowOf(g.windows, u)
    ensures forall u :: u != s && u in r.0.windows ==> u in g.windows
    ensures BansHaveWindows(g) ==> BansHaveWindows(r.0)
  {
    if s in g.banUntil && now < g.banUntil[s] then
      (g, Rejected(g.banUntil[s] - now))
    else
      // An elapsed ban is deleted and the sender's window emptied first.
      var g1 := if s in g.banUntil then Moderation(g.windows[s := []], g.banUntil - {s}) else g;
      var w := Push(WindowOf(g1.windows, s), Entry(text, now));
      var g2 := Moderation(g1.windows[s := w], g1.banUntil);
      if IsSpam(w, now) then
        (Moderation(g2.windows, g2.banUntil[s := now + BanSeconds]), SpamTriggered)
      else
        (g2, Allowed)
  }

  /** The window test, restated on the entries already there: a new entry
      completes a spam run iff the three entries before it carry its text
      and the oldest of them is at most five seconds old. */
  lemma {:induction false} SpamIffThreeEqualBefore(w: Window, e: Entry, now: int)
    requires |w| <= WindowCapacity
    ensures IsSpam(Push(w, e), now) <==>
              && |w| >= SpamThreshold - 1
              && now - w[|w| - (SpamThreshold - 1)].time <= SpamWindow
              && forall i :: |w| - (SpamThreshold - 1) <= i < |w| ==> w[i].text == e.text
  {
    var r := Push(w, e);
    if |w| >= SpamThreshold - 1 {
      var base := |w| - (SpamThreshold - 1);
      assert |r| == SpamThreshold;
      assert forall i :: 0 <= i < |r| - 1 ==> r[i] == w[base + i];
      if IsSpam(r, now) {
        forall i | base <= i < |w| ensures w[i].text == e.text {
          assert r[i - base] == w[i];
          assert r[i - base].text == r[0].text == r[|r| - 1].text;
        }
      }
      if forall i :: base <= i < |w| ==> w[i].text == e.text {
        forall i | 0 <= i < |r| ensures r[i].text == r[0].text {
          if i < |r| - 1 {
            assert r[i] == w[base + i];
          }
          assert r[0] == w[base];
        }
      }
    }
  }

  /** A message whose text differs from one of the three before it never starts a ban. */
  lemma {:induction false} DistinctTextNoBan(g: Moderation, s: UserId, text: string, now: int, k: int)
    requires forall u :: u in g.windows ==> |g.windows[u]| <= WindowCapacity
    requires s !in g.banUntil
    requires var w := WindowOf(g.windows, s); 0 <= k < |w| && |w| - (SpamThreshold - 1) <= k && w[k].text != text
    ensures !Moderate(g, s, text, now).1.SpamTriggered?
  {
    SpamIffThreeEqualBefore(WindowOf(g.windows, s), Entry(text, now), now);
  }

  /** A message from an unbanned sender whose window is not full is appended
      to it; a window still short of a spam run lets it through. */
  lemma {:induction false} ShortWindowGrows(g: Moderation, s: UserId, text: string, t: int)
    requires s !in g.banUntil && |WindowOf(g.windows, s)| < WindowCapacity
    ensures var r := Moderate(g, s, text, t);
            && r.0.windows[s] == WindowOf(g.windows, s) + [Entry(text, t)]
            && (|WindowOf(g.windows, s)| + 1 < SpamThreshold ==> r.1 == Allowed && s !in r.0.banUntil)
  {
    var r := Moderate(g, s, text, t);
    assert r.0.windows[s] == Push(WindowOf(g.windows, s), Entry(text, t));
  }

  /** Four identical messages from a sender with no history, the last at
      most five seconds after the first: the first three are broadcast, the
      fourth starts a ban of twenty seconds. */
  lemma {:induction false} FourIdenticalStartABan(g: Moderation, s: UserId, text: string, t0: int, t1: int, t2: int, t3: int)
    requires s !in g.windows && s !in g.banUntil
    requires t3 - t0 <= SpamWindow
    ensures var r0 := Moderate(g, s, text, t0);
            var r1 := Moderate(r0.0, s, text, t1);
            var r2 := Moderate(r1.0, s, text, t2);
            var r3 := Moderate(r2.0, s, text, t3);
            && r0.1 == Allowed && r1.1 == Allowed && r2.1 == Allowed
            && r3.1 == SpamTriggered
            && r3.0.banUntil[s] == t3 + BanSeconds
            && r3.0.windows[s] == [Entry(text, t0), Entry(text, t1), Entry(text, t2), Entry(text, t3)]
  {
    var r0 := Moderate(g, s, text, t0);
    ShortWindowGrows(g, s, text, t0);
    var r1 := Moderate(r0.0, s, text, t1);
    ShortWindowGrows(r0.0, s, text, t1);
    var r2 := Moderate(r1.0, s, text, t2);
    ShortWindowGrows(r1.0, s, text, t2);
    var r3 := Moderate(r2.0, s, text, t3);
    ShortWindowGrows(r2.0, s, text, t3);
    var w := [Entry(text, t0), Entry(text, t1), Entry(text, t2), Entry(text, t3)];
    assert r3.0.windows[s] == w;
    assert IsSpam(w, t3);
  }

  /** While a ban lasts every message is answered with the seconds left and
      changes nothing; once it has elapsed the next message is let through,
      the ban is gone and the window holds that message alone. */
  lemma {:induction false} BanLastsTwentySeconds(g: Moderation, s: UserId, text: string, now: int, text': string, later: int)
    requires Moderate(g, s, text, now).1.SpamTriggered?
    ensures var g' := Moderate(g, s, text, now).0;
            var r := Moderate(g', s, text', later);
            && (later < now + BanSeconds ==> r == (g', Rejected(now + BanSeconds - later)))
            && (later >= now + BanSeconds ==>
                  r.1 == Allowed && s !in r.0.banUntil && r.0.windows[s] == [Entry(text', later)])
  {
    var g' := Moderate(g, s, text, now).0;
    assert s in g'.banUntil && g'.banUntil[s] == now + BanSeconds;
    if later >= now + BanSeconds {
      var r := Moderate(g', s, text', later);
      assert r.0.windows[s] == [Entry(text', later)];
      assert !IsSpam(r.0.windows[s], later);
    }
  }
}
