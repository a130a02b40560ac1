/** The message log: an array that receives each accepted message with `push`
    and loses its first entry with `shift` once it holds more than 100. Its
    contents are described here as the latest 100 entries of the arrival
    history. */
module MessageLog {

  const Capacity := 100

  /** The latest `Capacity` entries of `history`, in arrival order. */
  function Window<T>(history: seq<T>): (w: seq<T>)
    ensures |w| == if |history| <= Capacity then |history| else Capacity
    ensures w == history[|history| - |w|..]
  {
    if |history| <= Capacity then history else history[|history| - Capacity..]
  }

  /** What one send does to a log: append, then evict the oldest entry if the
      bound is exceeded. The log grows by one until it is full, then stays full;
      `AppendEvictsOldest` says which entries it holds. */
  function Append<T>(log: seq<T>, m: T): (r: seq<T>)
    ensures |r| == if |log| < Capacity then |log| + 1 else Capacity
  {
    Window(log + [m])
  }

  /** Appending to a log within the bound keeps it within the bound; when it
      was full, exactly the oldest entry is gone, otherwise nothing is. */
  lemma AppendEvictsOldest<T>(log: seq<T>, m: T)
    requires |log| <= Capacity
    ensures 1 <= |Append(log, m)| <= Capacity
    ensures Append(log, m) == if |log| < Capacity then log + [m] else log[1..] + [m]
  {
    if |log| == Capacity {
      assert (log + [m])[1..] == log[1..] + [m];
    }
  }

  /** A window of a window: cutting the history early changes nothing. */
  lemma WindowOfWindow<T>(history: seq<T>, m: T)
    ensures Window(Window(history) + [m]) == Window(history + [m])
  {
    var w := Window(history);
    if |history| > Capacity {
      var h := history + [m];
      assert (w + [m])[1..] == h[|h| - Capacity..];
    }
  }

  /** The log after a sequence of sends, one `Append` per message. */
  function AppendAll<T>(log: seq<T>, ms: seq<T>): seq<T>
    decreases |ms|
  {
    if ms == [] then log else AppendAll(Append(log, ms[0]), ms[1..])
  }

  /** After any sequence of sends the log holds the latest `Capacity` entries
      of everything that arrived, in arrival order; so it never exceeds the
      bound and eviction is first in, first out. */
  lemma {:induction false} AppendAllWindow<T>(log: seq<T>, ms: seq<T>)
    requires |log| <= Capacity
    ensures AppendAll(log, ms) == Window(log + ms)
    decreases |ms|
  {
    if ms != [] {
      var next := Append(log, ms[0]);
      AppendEvictsOldest(log, ms[0]);
      AppendAllWindow(next, ms[1..]);
      WindowAppendAll(log, ms);
    }
  }

  lemma WindowAppendAll<T>(log: seq<T>, ms: seq<T>)
    requires |log| <= Capacity && ms != []
    ensures Window(Append(log, ms[0]) + ms[1..]) == Window(log + ms)
  {
    var h := log + [ms[0]];
    assert log + ms == h + ms[1..];
    if |h| > Capacity {
      assert Append(log, ms[0]) == h[1..];
      assert h[1..] + ms[1..] == (h + ms[1..])[1..];
    }
  }

  /** A log that starts with one entry and receives 101 messages holds 100
      entries, the first of them the second message sent. */
  lemma OverflowByOne<T>(welcome: T, ms: seq<T>)
    requires |ms| == 101
    ensures |AppendAll([welcome], ms)| == Capacity
    ensures AppendAll([welcome], ms)[0] == ms[1]
  {
    AppendAllWindow([welcome], ms);
    assert ([welcome] + ms)[2] == ms[1];
  }
}
