/** Messages as the log stores them, and plain logs: sequences of messages with
    increasing offsets. */
module Messages {
  import opened Wrappers
  import opened EpochCache

  const HEADER_LEN := 28

  /** `size` is the length of the serialized message behind its 28-byte header. */
  datatype Message = Message(offset: int, timestamp: int, leaderEpoch: Epoch,
                             key: Option<string>, value: string, size: nat)

  type Log = seq<Message>

  ghost predicate Increasing(log: Log) {
    forall i, j :: 0 <= i < j < |log| ==> log[i].offset < log[j].offset
  }

  ghost predicate EpochsOrdered(log: Log) {
    forall i, j :: 0 <= i < j < |log| ==> log[i].leaderEpoch <= log[j].leaderEpoch
  }

  /** Positive timestamps: a write time of 0 means "never written". */
  ghost predicate Stamped(log: Log) {
    forall i :: 0 <= i < |log| ==> log[i].timestamp > 0
  }

  function Bytes(log: Log): nat {
    if log == [] then 0 else Bytes(log[..|log| - 1]) + HEADER_LEN + log[|log| - 1].size
  }

  /** The messages below an offset, in order. */
  function Before(log: Log, offset: int): Log {
    if log == [] then []
    else Before(log[..|log| - 1], offset)
         + (if log[|log| - 1].offset < offset then [log[|log| - 1]] else [])
  }

  lemma {:induction false} BytesConcat(a: Log, b: Log)
    ensures Bytes(a + b) == Bytes(a) + Bytes(b)
  {
    if b == [] {
      assert a + b == a;
    } else {
      BytesConcat(a, b[..|b| - 1]);
      assert (a + b)[..|a + b| - 1] == a + b[..|b| - 1];
    }
  }

  lemma {:induction false} BeforeConcat(a: Log, b: Log, offset: int)
    ensures Before(a + b, offset) == Before(a, offset) + Before(b, offset)
  {
    if b == [] {
      assert a + b == a;
    } else {
      BeforeConcat(a, b[..|b| - 1], offset);
      assert (a + b)[..|a + b| - 1] == a + b[..|b| - 1];
    }
  }

  lemma {:induction false} BeforeAll(log: Log, offset: int)
    requires forall m :: m in log ==> m.offset < offset
    ensures Before(log, offset) == log
  {
    if log != [] {
      BeforeAll(log[..|log| - 1], offset);
      assert log == log[..|log| - 1] + [log[|log| - 1]];
    }
  }

  lemma {:induction false} BeforeNone(log: Log, offset: int)
    requires forall m :: m in log ==> m.offset >= offset
    ensures Before(log, offset) == []
  {
    if log != [] { BeforeNone(log[..|log| - 1], offset); }
  }

  /** `Before` keeps exactly the messages below the offset, as a prefix of an
      increasing log. */
  lemma BeforeIsPrefix(log: Log, offset: int, n: nat)
    requires n <= |log|
    requires forall i :: 0 <= i < n ==> log[i].offset < offset
    requires forall i :: n <= i < |log| ==> log[i].offset >= offset
    ensures Before(log, offset) == log[..n]
  {
    assert log == log[..n] + log[n..];
    BeforeConcat(log[..n], log[n..], offset);
    BeforeAll(log[..n], offset);
    BeforeNone(log[n..], offset);
  }
}
