/**
 * The bounded log history of `add_log`: every message is appended, and once
 * the history holds more than `MaxEntries` entries the oldest one is dropped.
 */
module EventLog {

  const MaxEntries: nat := 100

  /** The last `n` elements of `s` (all of them when `s` is shorter). */
  function LastN<T>(s: seq<T>, n: nat): (r: seq<T>)
    ensures |r| == if |s| <= n then |s| else n
    ensures r == s[|s| - |r|..]
  {
    if |s| <= n then s else s[|s| - n..]
  }

  /** One `add_log` call on the history. */
  function Logged<T>(history: seq<T>, message: T): (r: seq<T>)
    ensures |r| == if |history| < MaxEntries then |history| + 1 else |history|
    ensures r[|r| - 1] == message
    ensures r[..|r| - 1] == history[|history| + 1 - |r|..]
  {
    var h := history + [message];
    if |h| > MaxEntries then h[1..] else h
  }

  /** The history never grows past the bound once it is within it. */
  lemma LoggedBounded<T>(history: seq<T>, message: T)
    requires |history| <= MaxEntries
    ensures |Logged(history, message)| <= MaxEntries
    ensures |Logged(history, message)| == if |history| < MaxEntries then |history| + 1 else MaxEntries
  {
  }

  /**
   * The new message is the newest entry, and the earlier entries keep their
   * order: at most the oldest one is dropped.
   */
  lemma LoggedKeepsOrder<T>(history: seq<T>, message: T)
    requires |history| <= MaxEntries
    ensures var r := Logged(history, message);
      && r[|r| - 1] == message
      && (r[..|r| - 1] == history || (|history| == MaxEntries && r[..|r| - 1] == history[1..]))
  {
  }

  /** A sequence of `add_log` calls. */
  function LoggedAll<T>(history: seq<T>, messages: seq<T>): (r: seq<T>)
    ensures |history| <= MaxEntries ==> |r| <= MaxEntries
    ensures messages != [] ==> |r| >= 1 && r[|r| - 1] == messages[|messages| - 1]
    decreases |messages|
  {
    if messages == [] then history
    else LoggedAll(Logged(history, messages[0]), messages[1..])
  }

  /**
   * Whatever was logged, the history is the most recent `MaxEntries`
   * messages in the order they were logged.
   */
  lemma {:induction false} LoggedAllKeepsNewest<T>(history: seq<T>, messages: seq<T>)
    requires |history| <= MaxEntries
    ensures LoggedAll(history, messages) == Appended(history, messages)
    decreases |messages|
  {
    if messages != [] {
      var m, rest := messages[0], messages[1..];
      assert messages == [m] + rest;
      LoggedIsAppended(history, m);
      LoggedAllKeepsNewest(Logged(history, m), rest);
      AppendedTwice(history, [m], rest);
    }
  }

  /** The history after logging `messages` in order: the newest `MaxEntries` entries of both. */
  function Appended<T>(history: seq<T>, messages: seq<T>): (r: seq<T>)
    ensures |r| <= MaxEntries
  {
    LastN(history + messages, MaxEntries)
  }

  /** One `add_log` call, in the closed form. */
  lemma LoggedIsAppended<T>(history: seq<T>, message: T)
    requires |history| <= MaxEntries
    ensures Logged(history, message) == Appended(history, [message])
  {
  }

  /** Logging one run of messages and then another is logging both runs. */
  lemma AppendedTwice<T>(history: seq<T>, a: seq<T>, b: seq<T>)
    ensures Appended(Appended(history, a), b) == Appended(history, a + b)
  {
    var x := history + a;
    assert x + b == history + (a + b);
    if |x| > MaxEntries {
      var k := |x| - MaxEntries;
      assert (x + b)[k..] == x[k..] + b;
    }
  }
}
