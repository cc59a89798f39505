/** Detections and the total order by which the selector prefers one over another. */
module Ranking {
  import opened Common

  datatype Detection = Detection(
    category: string,
    confidence: real,
    left: real, top: real, right: real, bottom: real,
    trackId: Option<nat>)

  datatype Frame = Frame(sequence: int, width: int, height: int)

  predicate ValidDetection(d: Detection) {
    d.category != "" && 0.0 <= d.confidence <= 1.0 && d.left < d.right && d.top < d.bottom
  }

  function CenterX(d: Detection): real {
    (d.left + d.right) / 2.0
  }

  function CenterY(d: Detection): real {
    (d.top + d.bottom) / 2.0
  }

  function Area(d: Detection): real {
    NonNegative(d.right - d.left) * NonNegative(d.bottom - d.top)
  }

  function NonNegative(x: real): real {
    if x < 0.0 then 0.0 else x
  }

  function Square(x: real): real {
    x * x
  }

  /** Smaller is preferred: confidence, then area, then distance to the centre, then the box, then the track. */
  function Rank(frame: Frame, d: Detection): seq<real> {
    var dx := CenterX(d) - frame.width as real / 2.0;
    var dy := CenterY(d) - frame.height as real / 2.0;
    [-d.confidence, -Area(d), Square(dx) + Square(dy), d.left, d.top, d.right, d.bottom,
     if d.trackId.None? then -1.0 else d.trackId.value as real]
  }

  predicate LexLess(a: seq<real>, b: seq<real>) {
    if b == [] then false
    else if a == [] then true
    else if a[0] != b[0] then a[0] < b[0]
    else LexLess(a[1..], b[1..])
  }

  lemma {:induction false} LexTotal(a: seq<real>, b: seq<real>)
    ensures a == b || LexLess(a, b) || LexLess(b, a)
    ensures !(LexLess(a, b) && LexLess(b, a))
  {
    if a != [] && b != [] && a[0] == b[0] {
      LexTotal(a[1..], b[1..]);
      assert a == [a[0]] + a[1..] && b == [b[0]] + b[1..];
    }
  }

  lemma {:induction false} LexTransitive(a: seq<real>, b: seq<real>, c: seq<real>)
    requires !LexLess(b, a) && !LexLess(c, b)
    ensures !LexLess(c, a)
    ensures LexLess(a, b) || LexLess(b, c) ==> LexLess(a, c)
  {
    if a != [] && b != [] && c != [] && a[0] == b[0] == c[0] {
      LexTransitive(a[1..], b[1..], c[1..]);
    }
  }

  /** The i-th key is the first of the least: none is below it, and none before it equals it. */
  predicate FirstLeast(keys: seq<seq<real>>, i: int) {
    && 0 <= i < |keys|
    && (forall j :: 0 <= j < |keys| ==> !LexLess(keys[j], keys[i]))
    && (forall j :: 0 <= j < i ==> LexLess(keys[i], keys[j]))
  }

  lemma FirstLeastUnique(keys: seq<seq<real>>, i: int, j: int)
    requires FirstLeast(keys, i) && FirstLeast(keys, j)
    ensures i == j
  {
    assert !LexLess(keys[j], keys[i]) && !LexLess(keys[i], keys[j]);
  }

  function LeastIndex(keys: seq<seq<real>>): (i: nat)
    requires keys != []
    ensures i < |keys|
  {
    if |keys| == 1 then 0
    else
      var last := |keys| - 1;
      var i := LeastIndex(keys[..last]);
      if LexLess(keys[last], keys[i]) then last else i
  }

  lemma {:induction false} LeastIsFirst(keys: seq<seq<real>>)
    requires keys != []
    ensures FirstLeast(keys, LeastIndex(keys))
  {
    if |keys| == 1 {
      LexTotal(keys[0], keys[0]);
    } else {
      var last := |keys| - 1;
      var i := LeastIndex(keys[..last]);
      LeastIsFirst(keys[..last]);
      LexTotal(keys[last], keys[i]);
      LexTotal(keys[last], keys[last]);
      if LexLess(keys[last], keys[i]) {
        forall j | 0 <= j < last
          ensures LexLess(keys[last], keys[j]) && !LexLess(keys[j], keys[last])
        {
          LexTransitive(keys[last], keys[i], keys[j]);
          LexTotal(keys[last], keys[j]);
        }
      }
    }
  }

  lemma LeastIsOnly(keys: seq<seq<real>>)
    requires keys != []
    ensures FirstLeast(keys, LeastIndex(keys)) && forall i :: FirstLeast(keys, i) ==> i == LeastIndex(keys)
  {
    LeastIsFirst(keys);
    forall i | FirstLeast(keys, i)
      ensures i == LeastIndex(keys)
    {
      FirstLeastUnique(keys, i, LeastIndex(keys));
    }
  }

  function Ranks(frame: Frame, candidates: seq<Detection>): (keys: seq<seq<real>>)
    ensures |keys| == |candidates|
    ensures forall i :: 0 <= i < |keys| ==> keys[i] == Rank(frame, candidates[i])
  {
    seq(|candidates|, i requires 0 <= i < |candidates| => Rank(frame, candidates[i]))
  }

  function Best(frame: Frame, candidates: seq<Detection>): (best: Option<Detection>)
    ensures best.None? <==> candidates == []
    ensures best.Some? ==> best.value in candidates
  {
    if candidates == [] then None else Some(candidates[LeastIndex(Ranks(frame, candidates))])
  }

  /** The first candidate of least rank; there is exactly one. */
  method RankedDetection(frame: Frame, candidates: seq<Detection>) returns (best: Option<Detection>)
    ensures best == Best(frame, candidates)
    ensures best.Some? ==> exists i :: FirstLeast(Ranks(frame, candidates), i) && best.value == candidates[i]
    ensures forall i :: FirstLeast(Ranks(frame, candidates), i) ==> best == Some(candidates[i])
  {
    if candidates == [] {
      return None;
    }
    var ranks := Ranks(frame, candidates);
    var i := 0;
    for k := 1 to |candidates|
      invariant i == LeastIndex(ranks[..k])
    {
      assert ranks[..k + 1][..k] == ranks[..k];
      if LexLess(ranks[k], ranks[i]) {
        i := k;
      }
    }
    assert ranks[..|candidates|] == ranks;
    best := Some(candidates[i]);
    LeastIsOnly(ranks);
  }
}
