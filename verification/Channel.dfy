/**
 The capacity-one latest-value channel between threads. Every lock-held section is one atomic
 operation; threads interleave them freely.
 */
module Channel {
  import opened Common

  datatype Versioned<T> = Versioned(version: nat, value: T)

  datatype Chan<T> = Chan(value: Option<T>, version: nat, consumed: nat, closed: bool, overwritten: nat)

  datatype Operation<T> =
    | Publish(value: T)
    | Latest(after: nat, mark: bool) // the final test of a read, after whatever waiting
    | Peek
    | Close

  function Fresh<T>(): Chan<T> {
    Chan(None, 0, 0, false, 0)
  }

  function Max(a: nat, b: nat): nat {
    if a < b then b else a
  }

  /** A publish on a closed channel is refused and changes nothing. */
  function Step<T>(c: Chan<T>, op: Operation<T>): Chan<T> {
    match op
    case Publish(value) =>
      if c.closed then c
      else c.(value := Some(value), version := c.version + 1,
              overwritten := c.overwritten + if c.version > c.consumed then 1 else 0)
    case Latest(after, mark) =>
      if c.version <= after || c.value.None? || !mark then c else c.(consumed := Max(c.consumed, c.version))
    case Peek => if c.value.None? then c else c.(consumed := Max(c.consumed, c.version))
    case Close => c.(closed := true)
  }

  /** What a reading operation returns. */
  function Seen<T>(c: Chan<T>, op: Operation<T>): Option<Versioned<T>> {
    match op
    case Latest(after, _) =>
      if c.version <= after || c.value.None? then None else Some(Versioned(c.version, c.value.value))
    case Peek => if c.value.None? then None else Some(Versioned(c.version, c.value.value))
    case _ => None
  }

  function Run<T>(ops: seq<Operation<T>>, n: nat): Chan<T>
    requires n <= |ops|
  {
    if n == 0 then Fresh() else Step(Run(ops, n - 1), ops[n - 1])
  }

  /** What the n-th operation of a run returns. */
  function SeenAt<T>(ops: seq<Operation<T>>, k: nat): Option<Versioned<T>>
    requires k < |ops|
  {
    Seen(Run(ops, k), ops[k])
  }

  // ---- conservation ----

  predicate Consumes<T>(op: Operation<T>) {
    op.Peek? || (op.Latest? && op.mark)
  }

  /** The distinct versions handed out by consuming reads. */
  function ConsumedVersions<T>(ops: seq<Operation<T>>, n: nat): set<nat>
    requires n <= |ops|
  {
    if n == 0 then {}
    else
      ConsumedVersions(ops, n - 1)
      + if Consumes(ops[n - 1]) && SeenAt(ops, n - 1).Some? then {SeenAt(ops, n - 1).value.version} else {}
  }

  /** The values accepted for publication, oldest first. */
  function Published<T>(ops: seq<Operation<T>>, n: nat): seq<T>
    requires n <= |ops|
  {
    if n == 0 then []
    else
      Published(ops, n - 1)
      + if ops[n - 1].Publish? && !Run(ops, n - 1).closed then [ops[n - 1].value] else []
  }

  predicate Inv<T>(c: Chan<T>) {
    && c.consumed <= c.version
    && (c.value.Some? <==> c.version > 0)
  }

  /** The books of a channel: `given` are the distinct versions handed out. */
  predicate Balanced<T>(c: Chan<T>, given: set<nat>) {
    && Inv(c)
    && c.version == c.overwritten + |given| + (if c.version > c.consumed then 1 else 0)
    && (forall v :: v in given ==> 0 < v <= c.consumed)
    && (c.consumed > 0 ==> c.consumed in given)
  }

  /** Handing out the newest version keeps the balance, whether or not it was handed out before. */
  lemma ReadBalances<T>(c: Chan<T>, given: set<nat>)
    requires Balanced(c, given) && c.version > 0
    ensures Balanced(c.(consumed := c.version), given + {c.version})
  {
    if c.version == c.consumed {
      assert given + {c.version} == given;
    } else {
      assert c.version !in given;
    }
  }

  lemma StepBalances<T>(c: Chan<T>, op: Operation<T>, given: set<nat>)
    requires Balanced(c, given)
    ensures Balanced(Step(c, op), given + if Consumes(op) && Seen(c, op).Some? then {Seen(c, op).value.version} else {})
  {
    if Consumes(op) && Seen(c, op).Some? {
      ReadBalances(c, given);
    } else {
      assert given + {} == given;
    }
  }

  /**
   In every run, under every interleaving: each published value was overwritten unread, or handed
   out to some consuming read, or is the newest and still unread.
   */
  lemma {:induction false} Conservation<T>(ops: seq<Operation<T>>, n: nat)
    requires n <= |ops|
    ensures Balanced(Run(ops, n), ConsumedVersions(ops, n))
  {
    if n > 0 {
      Conservation(ops, n - 1);
      StepBalances(Run(ops, n - 1), ops[n - 1], ConsumedVersions(ops, n - 1));
    }
  }

  /** Versions number the published values, and the channel holds the newest of them. */
  lemma {:induction false} HoldsNewest<T>(ops: seq<Operation<T>>, n: nat)
    requires n <= |ops|
    ensures var c, published := Run(ops, n), Published(ops, n);
            && c.version == |published|
            && c.value == (if published == [] then None else Some(published[|published| - 1]))
  {
    if n > 0 {
      HoldsNewest(ops, n - 1);
    }
  }

  lemma {:induction false} VersionsGrow<T>(ops: seq<Operation<T>>, m: nat, n: nat)
    requires m <= n <= |ops|
    ensures Run(ops, m).version <= Run(ops, n).version
    ensures Run(ops, m).closed ==> Run(ops, n).closed && Run(ops, n).version == Run(ops, m).version
                                   && Run(ops, n).value == Run(ops, m).value
  {
    if m < n {
      VersionsGrow(ops, m, n - 1);
    }
  }

  /** Every read returns the newest value at that moment, under its own number. */
  lemma ReadsAreNewest<T>(ops: seq<Operation<T>>, k: nat)
    requires k < |ops| && SeenAt(ops, k).Some?
    ensures var seen, published := SeenAt(ops, k).value, Published(ops, k);
            published != [] && seen == Versioned(|published|, published[|published| - 1])
  {
    HoldsNewest(ops, k);
  }

  /** The operations at `mine` are one reader's, which passes the last version it was given. */
  predicate Follows<T>(ops: seq<Operation<T>>, mine: seq<nat>, last: nat)
  {
    && (forall i :: 0 <= i < |mine| ==> mine[i] < |ops| && ops[mine[i]].Latest?)
    && (forall i, j :: 0 <= i < j < |mine| ==> mine[i] < mine[j])
    && (forall i :: 0 <= i < |mine| ==> ops[mine[i]].after == LastGiven(ops, mine[..i], last))
  }

  /** The version most recently returned to the reader. */
  function LastGiven<T>(ops: seq<Operation<T>>, mine: seq<nat>, last: nat): nat
    requires forall i :: 0 <= i < |mine| ==> mine[i] < |ops|
  {
    if mine == [] then last
    else
      var k := mine[|mine| - 1];
      if SeenAt(ops, k).Some? then SeenAt(ops, k).value.version else LastGiven(ops, mine[..|mine| - 1], last)
  }

  lemma {:induction false} LastGivenGrows<T>(ops: seq<Operation<T>>, mine: seq<nat>, last: nat, i: nat)
    requires Follows(ops, mine, last) && i <= |mine|
    ensures LastGiven(ops, mine[..i], last) <= LastGiven(ops, mine, last)
    decreases |mine| - i
  {
    if i < |mine| {
      assert mine[..i + 1][..i] == mine[..i];
      LastGivenGrows(ops, mine, last, i + 1);
    } else {
      assert mine[..i] == mine;
    }
  }

  /** Such a reader is never given the same or an older version again. */
  lemma ReaderAdvances<T>(ops: seq<Operation<T>>, mine: seq<nat>, last: nat, i: nat, j: nat)
    requires Follows(ops, mine, last) && i < j < |mine|
    requires SeenAt(ops, mine[i]).Some? && SeenAt(ops, mine[j]).Some?
    ensures SeenAt(ops, mine[i]).value.version < SeenAt(ops, mine[j]).value.version
  {
    var before := mine[..j];
    assert Follows(ops, before, last) by {
      assert forall k :: 0 <= k < j ==> before[..k] == mine[..k];
    }
    LastGivenGrows(ops, before, last, i + 1);
    assert before[..i + 1][..i] == before[..i];
    assert before[..i + 1][i] == mine[i];
  }

  /** Closing loses nothing: the final value is returned to any reader that has not been given it. */
  lemma FinalValueSurvivesClose<T>(ops: seq<Operation<T>>, m: nat, n: nat)
    requires m <= n < |ops| && Run(ops, m).closed && ops[n].Latest? && ops[n].after < Run(ops, m).version
    ensures var final := Run(ops, m);
            final.value.Some? && SeenAt(ops, n) == Some(Versioned(final.version, final.value.value))
  {
    VersionsGrow(ops, m, n);
    HoldsNewest(ops, m);
  }

  // ---- the channel object ----

  class LatestValueChannel<T> {
    var value: Option<T>
    var version: nat
    var consumedVersion: nat
    var isClosed: bool
    var overwritten: nat

    ghost function Abstract(): Chan<T>
      reads this
    {
      Chan(value, version, consumedVersion, isClosed, overwritten)
    }

    constructor ()
      ensures Abstract() == Fresh()
    {
      value, version, consumedVersion, isClosed, overwritten := None, 0, 0, false, 0;
    }

    method PublishValue(published: T) returns (r: Option<nat>)
      modifies this
      ensures Abstract() == Step(old(Abstract()), Publish(published))
      ensures r == if old(isClosed) then None else Some(version)
    {
      if isClosed {
        return None;
      }
      if version > consumedVersion {
        overwritten := overwritten + 1;
      }
      version := version + 1;
      value := Some(published);
      r := Some(version);
    }

    /**
     Wait for a version after `after`. Each turn is what the other threads do during one wait; when
     there is no further turn, the timeout has passed.
     */
    method ReadLatest(after: nat, mark: bool, turns: seq<seq<Operation<T>>>)
      returns (r: Option<Versioned<T>>, waited: nat)
      modifies this
      ensures waited <= |turns|
      ensures var c := AfterTurns(old(Abstract()), turns, waited);
              && r == Seen(c, Latest(after, mark)) && Abstract() == Step(c, Latest(after, mark))
              && (waited == |turns| || c.version > after || c.closed)
      ensures forall i :: 0 <= i < waited ==>
                var c := AfterTurns(old(Abstract()), turns, i); c.version <= after && !c.closed
    {
      waited := 0;
      while version <= after && !isClosed
        invariant waited <= |turns| && Abstract() == AfterTurns(old(Abstract()), turns, waited)
        invariant forall i :: 0 <= i < waited ==>
                    var c := AfterTurns(old(Abstract()), turns, i); c.version <= after && !c.closed
        decreases |turns| - waited
      {
        if waited == |turns| {
          return None, waited;
        }
        OthersRun(turns[waited]);
        waited := waited + 1;
      }
      if version <= after || value.None? {
        return None, waited;
      }
      if mark {
        consumedVersion := Max(consumedVersion, version);
      }
      r := Some(Versioned(version, value.value));
    }

    /** What other threads do while this one waits. */
    method OthersRun(ops: seq<Operation<T>>)
      modifies this
      ensures Abstract() == AfterAll(old(Abstract()), ops)
    {
      for k := 0 to |ops|
        invariant Abstract() == AfterAll(old(Abstract()), ops[..k])
      {
        assert ops[..k + 1][..k] == ops[..k];
        match ops[k] {
          case Publish(published) =>
            var _ := PublishValue(published);
          case Latest(after, mark) =>
            if version > after && value.Some? && mark {
              consumedVersion := Max(consumedVersion, version);
            }
          case Peek =>
            var _ := PeekValue();
          case Close =>
            CloseChannel();
        }
      }
      assert ops[..|ops|] == ops;
    }

    method PeekValue() returns (r: Option<Versioned<T>>)
      modifies `consumedVersion
      ensures Abstract() == Step(old(Abstract()), Peek) && r == Seen(old(Abstract()), Peek)
    {
      if value.None? {
        return None;
      }
      consumedVersion := Max(consumedVersion, version);
      r := Some(Versioned(version, value.value));
    }

    method CloseChannel()
      modifies `isClosed
      ensures Abstract() == Step(old(Abstract()), Close)
    {
      isClosed := true;
    }
  }

  function AfterAll<T>(c: Chan<T>, ops: seq<Operation<T>>): Chan<T> {
    if ops == [] then c else Step(AfterAll(c, ops[..|ops| - 1]), ops[|ops| - 1])
  }

  function AfterTurns<T>(c: Chan<T>, turns: seq<seq<Operation<T>>>, n: nat): Chan<T>
    requires n <= |turns|
  {
    if n == 0 then c else AfterAll(AfterTurns(c, turns, n - 1), turns[n - 1])
  }
}
