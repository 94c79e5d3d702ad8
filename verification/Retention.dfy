/** Retention: deleting old segments by age, number of messages and bytes. What stays is
    a suffix of the segments that always includes the active, last one. */
module Retention {
  import opened Collections
  import opened Messages
  import opened SegmentedLog

  /** Limits are off when not positive. */
  datatype Limits = Limits(age: int, messages: int, bytes: int)

  function LastWrite(s: Seg): int { if s.msgs == [] then 0 else s.msgs[|s.msgs| - 1].timestamp }

  function MessageCount(s: Seg): nat { |s.msgs| }

  function ByteCount(s: Seg): nat { Bytes(s.msgs) }

  /** Messages or bytes in all. */
  function Total(segs: seq<Seg>, weight: Seg -> nat): nat
    decreases |segs|
  {
    if segs == [] then 0 else weight(segs[0]) + Total(segs[1..], weight)
  }

  // ----- where a limit cuts -----

  /** The longest suffix within the limit, or else just the last segment. */
  function Cut(segs: seq<Seg>, weight: Seg -> nat, limit: int): (k: nat)
    requires segs != []
    ensures k < |segs|
    decreases |segs|
  {
    if |segs| == 1 || Total(segs, weight) <= limit then 0 else 1 + Cut(segs[1..], weight, limit)
  }

  /** It is within the limit if it is more than the last segment, and any longer one is
      not. */
  lemma {:induction false} CutLaw(segs: seq<Seg>, weight: Seg -> nat, limit: int, i: nat)
    requires segs != [] && i <= Cut(segs, weight, limit)
    ensures var k := Cut(segs, weight, limit);
            if i < k then Total(segs[i..], weight) > limit else k == |segs| - 1 || Total(segs[k..], weight) <= limit
    decreases |segs|
  {
    assert segs[0..] == segs;
    if Cut(segs, weight, limit) > 0 {
      CutLaw(segs[1..], weight, limit, if i == 0 then 0 else i - 1);
      assert i > 0 ==> segs[1..][i - 1..] == segs[i..];
    }
  }

  /** The suffix from the first unexpired segment, or else just the last segment. */
  function Fresh(segs: seq<Seg>, ttl: int): (k: nat)
    requires segs != []
    ensures k < |segs| && (k == |segs| - 1 || LastWrite(segs[k]) >= ttl)
    ensures forall i :: 0 <= i < k ==> LastWrite(segs[i]) < ttl
    decreases |segs|
  {
    if |segs| == 1 || LastWrite(segs[0]) >= ttl then 0 else 1 + Fresh(segs[1..], ttl)
  }

  lemma {:induction false} TotalGrows(segs: seq<Seg>, weight: Seg -> nat, j: nat)
    requires j <= |segs|
    ensures Total(segs[j..], weight) <= Total(segs, weight)
    decreases j
  {
    if j == 0 {
      assert segs[0..] == segs;
    } else {
      TotalGrows(segs[1..], weight, j - 1);
      assert segs[1..][j - 1..] == segs[j..];
    }
  }

  lemma {:induction false} CutIs(segs: seq<Seg>, weight: Seg -> nat, limit: int, k: nat)
    requires k < |segs| && (k == |segs| - 1 || Total(segs[k..], weight) <= limit)
    requires k == 0 || Total(segs[k - 1..], weight) > limit
    ensures Cut(segs, weight, limit) == k
    decreases |segs|
  {
    if k == 0 {
      assert segs[0..] == segs;
    } else {
      TotalGrows(segs, weight, k - 1);
      assert segs[1..][k - 1..] == segs[k..];
      assert k > 1 ==> segs[1..][k - 2..] == segs[k - 1..];
      CutIs(segs[1..], weight, limit, k - 1);
    }
  }

  /** Cutting a suffix is cutting the whole, unless the suffix is shorter already. */
  lemma {:induction false} CutSuffix(segs: seq<Seg>, weight: Seg -> nat, limit: int, from: nat)
    requires from < |segs|
    ensures from + Cut(segs[from..], weight, limit) == Max(from, Cut(segs, weight, limit))
    decreases from
  {
    if from == 0 {
      assert segs[0..] == segs;
    } else if Total(segs, weight) <= limit {
      TotalGrows(segs, weight, from);
    } else {
      CutSuffix(segs[1..], weight, limit, from - 1);
      assert segs[1..][from - 1..] == segs[from..];
    }
  }

  lemma TotalStep(segs: seq<Seg>, weight: Seg -> nat, i: nat)
    requires i < |segs|
    ensures Total(segs[i..], weight) == weight(segs[i]) + Total(segs[i + 1..], weight)
    ensures Total(segs[|segs|..], weight) == 0
  {
    assert segs[i..][1..] == segs[i + 1..];
  }

  // ----- the loops -----

  /** Drops expired segments from the front; the last segment stays. */
  method ApplyAgeLimit(segs: seq<Seg>, ttl: int) returns (kept: seq<Seg>)
    requires segs != []
    ensures kept == segs[Fresh(segs, ttl)..]
  {
    if |segs| <= 1 { return segs; }
    var i := 0;
    while i != |segs| - 1 && LastWrite(segs[i]) < ttl
      invariant i < |segs| && i + Fresh(segs[i..], ttl) == Fresh(segs, ttl)
      decreases |segs| - i
    {
      assert segs[i..][1..] == segs[i + 1..];
      i := i + 1;
    }
    return segs[i..];
  }

  /** From the active segment backwards until the total is over the limit. */
  method ApplyLimit(segs: seq<Seg>, weight: Seg -> nat, limit: int) returns (kept: seq<Seg>)
    requires segs != []
    ensures kept == segs[Cut(segs, weight, limit)..]
  {
    hide Cut;
    hide Total;
    if |segs| <= 1 { return segs; }
    var n := |segs| - 1;
    kept := [segs[n]];
    var total := weight(segs[n]);
    var k := n;
    TotalStep(segs, weight, n);
    while k > 0
      invariant k <= n && kept == segs[k..] && total == Total(segs[k..], weight)
      invariant k == n || total <= limit
    {
      TotalStep(segs, weight, k - 1);
      total := total + weight(segs[k - 1]);
      if total > limit { break; }
      Prepend(segs, k);
      kept := [segs[k - 1]] + kept;
      k := k - 1;
    }
    CutIs(segs, weight, limit, k);
  }

  lemma Prepend<T>(s: seq<T>, k: nat)
    requires 0 < k <= |s|
    ensures [s[k - 1]] + s[k..] == s[k - 1..]
  {}

  /** Where each limit would cut the whole log by itself. */
  function AgeCut(segs: seq<Seg>, limits: Limits, ttl: int): nat
    requires segs != []
  {
    if limits.age > 0 then Fresh(segs, ttl) else 0
  }

  function MessagesCut(segs: seq<Seg>, limits: Limits): nat
    requires segs != []
  {
    if limits.messages > 0 then Cut(segs, MessageCount, limits.messages) else 0
  }

  function BytesCut(segs: seq<Seg>, limits: Limits): nat
    requires segs != []
  {
    if limits.bytes > 0 then Cut(segs, ByteCount, limits.bytes) else 0
  }

  /** The deepest of the three cuts. */
  function CleanCut(segs: seq<Seg>, limits: Limits, ttl: int): (k: nat)
    requires segs != []
    ensures k < |segs|
  {
    Max(AgeCut(segs, limits, ttl), Max(MessagesCut(segs, limits), BytesCut(segs, limits)))
  }

  lemma {:induction false} TotalIs(segs: seq<Seg>)
    ensures Total(segs, MessageCount) == |Flatten(segs)|
    ensures Total(segs, ByteCount) == Bytes(Flatten(segs))
    decreases |segs|
  {
    if segs != [] {
      TotalIs(segs[1..]);
      assert segs == [segs[0]] + segs[1..];
      FlattenConcat([segs[0]], segs[1..]);
      FlattenOne(segs[0]);
      BytesConcat(segs[0].msgs, Flatten(segs[1..]));
    }
  }

  /** What is left has at most so many messages and bytes, unless it is one segment. */
  ghost predicate WithinLimits(kept: seq<Seg>, limits: Limits) {
    |kept| > 1 ==>
      && (limits.messages > 0 ==> |Flatten(kept)| <= limits.messages)
      && (limits.bytes > 0 ==> Bytes(Flatten(kept)) <= limits.bytes)
  }

  /** The last write to the segment, 0 if there was none, is before `ttl`. */
  ghost predicate Expired(s: Seg, ttl: int) {
    if s.msgs == [] then 0 < ttl else s.msgs[|s.msgs| - 1].timestamp < ttl
  }

  /** Why the first `k` segments go: they are all expired, or the last of them and what
      follows it are too many messages or too many bytes. */
  ghost predicate Overdue(segs: seq<Seg>, limits: Limits, ttl: int, k: nat)
    requires 0 < k <= |segs|
  {
    || (limits.age > 0 && forall i :: 0 <= i < k ==> Expired(segs[i], ttl))
    || (limits.messages > 0 && |Flatten(segs[k - 1..])| > limits.messages)
    || (limits.bytes > 0 && Bytes(Flatten(segs[k - 1..])) > limits.bytes)
  }

  /** Expired segments go from the front until one is not, or is the last. */
  ghost predicate UnexpiredSeen(segs: seq<Seg>, limits: Limits, ttl: int, k: nat) {
    limits.age > 0 && k < |segs| - 1 ==> exists j :: 0 <= j <= k && !Expired(segs[j], ttl)
  }

  lemma CleanCutLaw(segs: seq<Seg>, limits: Limits, ttl: int)
    requires segs != []
    ensures var k := CleanCut(segs, limits, ttl);
            && WithinLimits(segs[k..], limits) && UnexpiredSeen(segs, limits, ttl, k)
            && (k > 0 ==> Overdue(segs, limits, ttl, k))
  {
    hide Cut;
    hide Total;
    hide Flatten;
    var k := CleanCut(segs, limits, ttl);
    if limits.messages > 0 { LimitLaw(segs, MessageCount, limits.messages, k); }
    if limits.bytes > 0 { LimitLaw(segs, ByteCount, limits.bytes, k); }
    TotalIs(segs[k..]);
    if k > 0 { TotalIs(segs[k - 1..]); }
  }

  lemma NothingWithin(limits: Limits)
    ensures WithinLimits([], limits)
  {}

  lemma LimitLaw(segs: seq<Seg>, weight: Seg -> nat, limit: int, k: nat)
    requires k < |segs| && Cut(segs, weight, limit) <= k
    ensures k < |segs| - 1 ==> Total(segs[k..], weight) <= limit
    ensures 0 < k == Cut(segs, weight, limit) ==> Total(segs[k - 1..], weight) > limit
  {
    var c := Cut(segs, weight, limit);
    CutLaw(segs, weight, limit, c);
    TotalGrows(segs[c..], weight, k - c);
    assert segs[c..][k - c..] == segs[k..];
    if c > 0 { CutLaw(segs, weight, limit, c - 1); }
  }

  /** Age, messages and bytes in turn keep exactly the shortest of the three suffixes. */
  method Clean(segs: seq<Seg>, limits: Limits, ttl: int) returns (kept: seq<Seg>)
    ensures segs == [] ==> kept == []
    ensures segs != [] ==> kept == segs[CleanCut(segs, limits, ttl)..]
    ensures segs != [] ==> kept != [] && |kept| <= |segs| && kept == segs[|segs| - |kept|..]
    ensures WithinLimits(kept, limits)
    ensures |kept| <= |segs| && UnexpiredSeen(segs, limits, ttl, |segs| - |kept|)
    ensures |kept| < |segs| ==> Overdue(segs, limits, ttl, |segs| - |kept|)
  {
    hide Cut;
    hide Fresh;
    hide Total;
    hide WithinLimits;
    hide Overdue;
    if segs != [] { CleanCutLaw(segs, limits, ttl); } else { NothingWithin(limits); }
    if segs == [] || (limits.bytes == 0 && limits.messages == 0 && limits.age == 0) { return segs; }
    kept := segs;
    if limits.age > 0 { kept := ApplyAgeLimit(kept, ttl); }
    if limits.messages > 0 { kept := CutFrom(segs, AgeCut(segs, limits, ttl), kept, MessageCount, limits.messages); }
    if limits.bytes > 0 {
      kept := CutFrom(segs, Max(AgeCut(segs, limits, ttl), MessagesCut(segs, limits)), kept, ByteCount, limits.bytes);
    }
  }

  /** A limit applied to a suffix. */
  method CutFrom(segs: seq<Seg>, ghost from: nat, suffix: seq<Seg>, weight: Seg -> nat, limit: int)
    returns (kept: seq<Seg>)
    requires from < |segs| && suffix == segs[from..]
    ensures kept == segs[Max(from, Cut(segs, weight, limit))..]
  {
    kept := ApplyLimit(suffix, weight, limit);
    CutSuffix(segs, weight, limit, from);
  }

  // ----- the order of the limits -----

  /** Applying the age limit to what the other limits leave gives the same result exactly
      if those cut no deeper than age does, or what they leave starts with a segment that
      is not expired or is the last. */
  lemma AgeOrder(segs: seq<Seg>, ttl: int, k: nat)
    requires k < |segs|
    ensures k + Fresh(segs[k..], ttl) == Max(Fresh(segs, ttl), k) <==>
            k <= Fresh(segs, ttl) || k == |segs| - 1 || LastWrite(segs[k]) >= ttl
  {
    if k <= Fresh(segs, ttl) { FreshSuffix(segs, ttl, k); }
  }

  lemma {:induction false} FreshSuffix(segs: seq<Seg>, ttl: int, k: nat)
    requires segs != [] && k <= Fresh(segs, ttl)
    ensures k + Fresh(segs[k..], ttl) == Fresh(segs, ttl)
    decreases k
  {
    if k == 0 {
      assert segs[0..] == segs;
    } else {
      FreshSuffix(segs[1..], ttl, k - 1);
      assert segs[1..][k - 1..] == segs[k..];
    }
  }

  /** With write times in order, age can be applied first or last. */
  lemma AnyOrder(segs: seq<Seg>, ttl: int, k: nat)
    requires k < |segs| && forall i, j :: 0 <= i < j < |segs| - 1 ==> LastWrite(segs[i]) <= LastWrite(segs[j])
    ensures k + Fresh(segs[k..], ttl) == Max(Fresh(segs, ttl), k)
  {
    AgeOrder(segs, ttl, k);
  }

  /** Without that the order matters: age first keeps from segment 1 on, age last only
      segment 2. */
  lemma OrderMatters(x: Message, y: Message, ttl: int)
    requires x.timestamp >= ttl > y.timestamp
    ensures var segs := [Seg(0, [x]), Seg(1, [y]), Seg(2, [])];
            Max(Fresh(segs, ttl), 1) == 1 && 1 + Fresh(segs[1..], ttl) == 2
  {
    var segs := [Seg(0, [x]), Seg(1, [y]), Seg(2, [])];
    assert segs[1..][0] == segs[1];
    AgeOrder(segs, ttl, 1);
  }
}
