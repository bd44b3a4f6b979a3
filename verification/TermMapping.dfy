/**
 Replacing a query term by its standard form (`applyQueryTermMapping` of
 `internal/biz/rag/query_term_normalizer.go`). The scan leaves a hit alone that already reads as the target;
 what that protects is stated exactly. Texts are sequences of any elements, bytes or code points.
 */
module TermMapping {

  /** `term` stands in `text` at position `p`. */
  predicate At<T(==)>(text: seq<T>, term: seq<T>, p: nat) {
    p + |term| <= |text| && forall k :: 0 <= k < |term| ==> text[p + k] == term[k]
  }

  ghost predicate Occurs<T>(text: seq<T>, term: seq<T>) {
    exists p :: At(text, term, p)
  }

  /** `strings.Index` from `idx` on: the first position of `term`, or -1. */
  function IndexFrom<T(==)>(text: seq<T>, term: seq<T>, idx: nat): (i: int)
    ensures i == -1 || (idx <= i && At(text, term, i))
    ensures forall p :: idx <= p && At(text, term, p) ==> 0 <= i <= p
    decreases |text| - idx
  {
    if idx + |term| > |text| then -1
    else if At(text, term, idx) then idx
    else IndexFrom(text, term, idx + 1)
  }

  /** How much of the text a hit consumes: all of the target if it stands there already. */
  function Consumed<T(==)>(text: seq<T>, hit: nat, source: seq<T>, target: seq<T>): nat {
    if At(text, target, hit) then |target| else |source|
  }

  function Scan<T(==)>(text: seq<T>, idx: nat, source: seq<T>, target: seq<T>): seq<T>
    requires source != [] && target != [] && idx <= |text|
    decreases |text| - idx
  {
    var hit := IndexFrom(text, source, idx);
    if hit < 0 then text[idx..]
    else text[idx..hit] + target + Scan(text, hit + Consumed(text, hit, source, target), source, target)
  }

  function Apply<T(==)>(text: seq<T>, source: seq<T>, target: seq<T>): seq<T> {
    if text == [] || source == [] || target == [] then text else Scan(text, 0, source, target)
  }

  /** One hit. */
  lemma {:induction false} ScanStep<T>(text: seq<T>, idx: nat, source: seq<T>, target: seq<T>)
    requires source != [] && target != [] && idx <= |text|
    ensures var hit := IndexFrom(text, source, idx);
            if hit < 0 then Scan(text, idx, source, target) == text[idx..]
            else
              && idx <= hit && hit + Consumed(text, hit, source, target) <= |text|
              && Scan(text, idx, source, target) ==
                 text[idx..hit] + target + Scan(text, hit + Consumed(text, hit, source, target), source, target)
              && Consumed(text, hit, source, target) == (if At(text, target, hit) then |target| else |source|)
  {
    hide IndexFrom;
  }

  lemma AtSlice<T>(text: seq<T>, term: seq<T>, p: nat)
    requires At(text, term, p)
    ensures p + |term| <= |text| && text[p..p + |term|] == term
  {
  }

  /** A full scan, from the first position to the end. */
  lemma ScanEnds<T>(text: seq<T>, source: seq<T>, target: seq<T>)
    ensures text == [] || source == [] || target == [] ==> Apply(text, source, target) == text
    ensures text != [] && source != [] && target != [] ==>
              && Apply(text, source, target) == Scan(text, 0, source, target)
              && Scan(text, |text|, source, target) == []
  {
  }

  lemma Regroup<T>(b: seq<T>, gap: seq<T>, target: seq<T>, more: seq<T>)
    ensures b + gap + target + more == b + (gap + target + more)
  {
  }

  method ApplyQueryTermMapping<T(==)>(text: seq<T>, sourceTerm: seq<T>, targetTerm: seq<T>) returns (b: seq<T>)
    ensures b == Apply(text, sourceTerm, targetTerm)
  {
    hide *;
    ScanEnds(text, sourceTerm, targetTerm);
    if text == [] || sourceTerm == [] || targetTerm == [] {
      return text;
    }
    b := [];
    var idx := 0;
    while idx < |text|
      invariant idx <= |text| && b + Scan(text, idx, sourceTerm, targetTerm) == Scan(text, 0, sourceTerm, targetTerm)
    {
      ScanStep(text, idx, sourceTerm, targetTerm);
      var hit := IndexFrom(text, sourceTerm, idx);
      ghost var b0, idx0 := b, idx;
      if hit < 0 {
        b := b + text[idx..];
        return;
      }
      b := b + text[idx..hit];
      if At(text, targetTerm, hit) {
        AtSlice(text, targetTerm, hit);
        b := b + text[hit..hit + |targetTerm|];
        idx := hit + |targetTerm|;
      } else {
        b := b + targetTerm;
        idx := hit + |sourceTerm|;
      }
      Regroup(b0, text[idx0..hit], targetTerm, Scan(text, idx, sourceTerm, targetTerm));
    }
  }

  // ----- Idempotence -----

  /** A hit in the rewritten text that begins in the gap would have been a hit in the text before. */
  lemma EarlierHit<T>(text: seq<T>, idx: nat, hit: nat, source: seq<T>, target: seq<T>, pre: seq<T>, more: seq<T>,
                      p: nat)
    requires source <= target && idx <= hit && At(text, source, hit)
    requires |pre| <= p < |pre| + hit - idx && At(pre + text[idx..hit] + target + more, source, p)
    ensures At(text, source, p - |pre| + idx)
  {
    var o, q := pre + text[idx..hit] + target + more, p - |pre| + idx;
    forall k | 0 <= k < |source| ensures text[q + k] == source[k] {
      assert o[p + k] == source[k];
      if q + k >= hit {
        assert o[p + k] == target[q + k - hit] == source[q + k - hit] == text[hit + (q + k - hit)];
      }
    }
  }

  /** After a rewrite the first hit is where it was. */
  lemma FirstHitStays<T>(text: seq<T>, idx: nat, hit: nat, source: seq<T>, target: seq<T>, pre: seq<T>, more: seq<T>)
    requires source != [] && source <= target && idx <= hit && IndexFrom(text, source, idx) == hit
    ensures IndexFrom(pre + text[idx..hit] + target + more, source, |pre|) == |pre| + hit - idx
  {
    var o := pre + text[idx..hit] + target + more;
    var at := |pre| + hit - idx;
    assert forall k :: 0 <= k < |source| ==> o[at + k] == target[k];
    assert At(o, source, at);
    var i := IndexFrom(o, source, |pre|);
    if i < at { EarlierHit(text, idx, hit, source, target, pre, more, i); }
  }

  lemma AtJoin<T>(a: seq<T>, term: seq<T>, b: seq<T>)
    ensures At(a + term + b, term, |a|)
  {
  }

  lemma Between<T>(a: seq<T>, b: seq<T>, c: seq<T>)
    ensures (a + b + c)[|a|..|a| + |b|] == b
  {
  }

  /** Scanning the rewritten text again skips the target that was put in. */
  lemma {:induction false} RescanSkipsTarget<T>(pre: seq<T>, gap: seq<T>, source: seq<T>, target: seq<T>, more: seq<T>)
    requires source != [] && target != [] && IndexFrom(pre + gap + target + more, source, |pre|) == |pre| + |gap|
    ensures Scan(pre + gap + target + more, |pre|, source, target) ==
            gap + target + Scan(pre + gap + target + more, |pre| + |gap| + |target|, source, target)
  {
    hide *;
    var o := pre + gap + target + more;
    AtJoin(pre + gap, target, more);
    assert |pre + gap| == |pre| + |gap|;
    ScanStep(o, |pre|, source, target);
    Between(pre, gap, target + more);
    assert pre + gap + (target + more) == o;
  }

  /** A term that its standard form begins with is expanded once, whatever the text. */
  lemma {:induction false} PrefixExpandsOnce<T>(text: seq<T>, idx: nat, source: seq<T>, target: seq<T>, pre: seq<T>)
    requires source != [] && source <= target && idx <= |text|
    ensures Scan(pre + Scan(text, idx, source, target), |pre|, source, target) == Scan(text, idx, source, target)
    decreases |text| - idx
  {
    hide Scan, IndexFrom, At;
    ScanStep(text, idx, source, target);
    var hit := IndexFrom(text, source, idx);
    if hit < 0 {
      UntouchedTail(text, idx, source, target, pre);
    } else {
      var next := hit + Consumed(text, hit, source, target);
      var gap, more := text[idx..hit], Scan(text, next, source, target);
      FirstHitStays(text, idx, hit, source, target, pre, more);
      RescanSkipsTarget(pre, gap, source, target, more);
      PrefixExpandsOnce(text, next, source, target, pre + gap + target);
      assert pre + (gap + target + more) == pre + gap + target + more;
    }
  }

  lemma UntouchedTail<T>(text: seq<T>, idx: nat, source: seq<T>, target: seq<T>, pre: seq<T>)
    requires source != [] && target != [] && idx <= |text| && IndexFrom(text, source, idx) < 0
    ensures Scan(pre + text[idx..], |pre|, source, target) == text[idx..]
  {
    var o := pre + text[idx..];
    var i := IndexFrom(o, source, |pre|);
    if i >= 0 {
      forall k | 0 <= k < |source| ensures text[i - |pre| + idx + k] == source[k] { assert o[i + k] == source[k]; }
      assert At(text, source, i - |pre| + idx);
    }
    assert o[|pre|..] == text[idx..];
  }

  /** A mapping to a prefix of the term itself never changes anything: each hit already reads as the target. */
  lemma {:induction false} ShorteningNeverApplies<T>(text: seq<T>, idx: nat, source: seq<T>, target: seq<T>)
    requires target != [] && target <= source && idx <= |text|
    ensures Scan(text, idx, source, target) == text[idx..]
    decreases |text| - idx
  {
    hide Scan, IndexFrom;
    ScanStep(text, idx, source, target);
    var hit := IndexFrom(text, source, idx);
    if hit >= 0 {
      assert At(text, target, hit);
      ShorteningNeverApplies(text, hit + |target|, source, target);
      Rejoin(text, idx, hit, target);
    }
  }

  lemma Rejoin<T>(text: seq<T>, idx: nat, hit: nat, target: seq<T>)
    requires idx <= hit && At(text, target, hit)
    ensures text[idx..hit] + target + text[hit + |target|..] == text[idx..]
  {
  }

  /** Two terms that stand at the same position are comparable. */
  lemma SamePosition<T>(text: seq<T>, a: seq<T>, b: seq<T>, p: nat)
    requires At(text, a, p) && At(text, b, p)
    ensures a <= b || b <= a
  {
    if |a| <= |b| {
      assert forall k :: 0 <= k < |a| ==> text[p + k] == b[k];
    } else {
      assert forall k :: 0 <= k < |b| ==> text[p + k] == a[k];
    }
  }

  /** Any other mapping changes every text that contains the term. */
  lemma {:induction false} RewriteIsVisible<T>(text: seq<T>, source: seq<T>, target: seq<T>)
    requires source != [] && target != [] && !(source <= target) && !(target <= source)
    ensures Scan(text, 0, source, target) == text <==> !Occurs(text, source)
  {
    hide Scan, IndexFrom;
    ScanStep(text, 0, source, target);
    assert text[0..] == text;
    var hit := IndexFrom(text, source, 0);
    if hit >= 0 {
      var o := Scan(text, 0, source, target);
      AtJoin(text[0..hit], target, Scan(text, hit + Consumed(text, hit, source, target), source, target));
      assert At(o, target, hit);
      if At(text, target, hit) { SamePosition(text, source, target, hit); }
    }
  }

  /** A second application changes a text exactly if the term occurs in it again, for all but stable pairs. */
  lemma SecondChanges<T>(text: seq<T>, source: seq<T>, target: seq<T>)
    ensures var once := Apply(text, source, target);
            Apply(once, source, target) == once <==>
              text == [] || source == [] || target == [] || source <= target || target <= source ||
                !Occurs(once, source)
  {
    if text != [] && source != [] && target != [] {
      var once := Scan(text, 0, source, target);
      if source <= target {
        PrefixExpandsOnce(text, 0, source, target, []);
        assert [] + once == once;
      } else if target <= source {
        ShorteningNeverApplies(text, 0, source, target);
      } else {
        RewriteIsVisible(once, source, target);
      }
    }
  }

  lemma NoShorterHit<T>(text: seq<T>, idx: nat, source: seq<T>)
    requires idx <= |text| < idx + |source|
    ensures IndexFrom(text, source, idx) == -1
  {
  }

  // ----- Which mappings expand every text once -----

  /** Laid over each other with `source` starting `d` places into `target`, the two agree where they meet. */
  predicate AgreesAt<T(==)>(source: seq<T>, target: seq<T>, d: int) {
    forall k :: 0 <= k < |source| && 0 <= d + k < |target| ==> source[k] == target[d + k]
  }

  /** The part of `source` that comes before the target, if it starts `-d` places ahead of it. */
  function Before<T>(source: seq<T>, d: int): seq<T>
    requires -|source| < d
  {
    if d < 0 then source[..-d] else []
  }

  /** The part of `source` that comes after the target. */
  function After<T>(source: seq<T>, target: seq<T>, d: int): seq<T>
    requires d < |target|
  {
    if |target| - d < |source| then source[|target| - d..] else []
  }

  /**
   A hit can remain `d` places into a target that was put in: the two agree there, and a hit that
   reaches the target from the left was not one already before the target was put in.
   */
  predicate LeavesHit<T(==)>(source: seq<T>, target: seq<T>, d: int) {
    && d != 0 && -|source| < d < |target| && AgreesAt(source, target, d)
    && (d < 0 ==> IndexFrom(Before(source, d) + source, source, 0) == -d)
  }

  /** What a caller can see from the mapping alone. */
  ghost predicate IsStable<T>(source: seq<T>, target: seq<T>) {
    source == [] || target == [] || source <= target || target <= source || !exists d :: LeavesHit(source, target, d)
  }

  /** A text with one hit, behind `pre` and before a tail too short for another one. */
  lemma {:induction false} OneHit<T>(pre: seq<T>, source: seq<T>, target: seq<T>, tail: seq<T>)
    requires source != [] && target != [] && !(source <= target) && !(target <= source) && |tail| < |source|
    requires IndexFrom(pre + source, source, 0) == |pre|
    ensures Apply(pre + source + tail, source, target) == pre + target + tail
  {
    hide Scan, Apply, IndexFrom;
    var text, next := pre + source + tail, |pre| + |source|;
    ScanEnds(text, source, target);
    FirstHitBehind(pre, source, tail);
    if At(text, target, |pre|) { SamePosition(text, source, target, |pre|); }
    NoShorterHit(text, next, source);
    ScanStep(text, 0, source, target);
    ScanStep(text, next, source, target);
    assert text[0..|pre|] == pre && text[next..] == tail;
  }

  lemma FirstHitBehind<T>(pre: seq<T>, source: seq<T>, tail: seq<T>)
    requires IndexFrom(pre + source, source, 0) == |pre|
    ensures IndexFrom(pre + source + tail, source, 0) == |pre|
  {
    var text := pre + source + tail;
    AtJoin(pre, source, tail);
    var i := IndexFrom(text, source, 0);
    if i < |pre| {
      forall k | 0 <= k < |source| ensures (pre + source)[i + k] == source[k] { assert text[i + k] == source[k]; }
      assert At(pre + source, source, i);
    }
  }

  lemma RemainingHit<T>(source: seq<T>, target: seq<T>, d: int)
    requires source != [] && -|source| < d < |target| && AgreesAt(source, target, d)
    ensures var pre := Before(source, d);
            |pre| + d >= 0 && At(pre + target + After(source, target, d), source, |pre| + d)
  {
    var pre, tail := Before(source, d), After(source, target, d);
    var once, p := pre + target + tail, |pre| + d;
    forall k | 0 <= k < |source| ensures p + k < |once| && once[p + k] == source[k] {
      if d + k < 0 {
        assert pre[p + k] == source[k];
      } else if d + k < |target| {
        assert once[p + k] == target[d + k];
      } else {
        assert once[p + k] == tail[d + k - |target|];
      }
    }
  }

  /** Any remaining hit gives a text that a second application changes. */
  lemma {:induction false} LeavesHitExpandsTwice<T>(source: seq<T>, target: seq<T>, d: int)
    requires source != [] && target != [] && !(source <= target) && !(target <= source) && LeavesHit(source, target, d)
    ensures var text := Before(source, d) + source + After(source, target, d);
            Apply(Apply(text, source, target), source, target) != Apply(text, source, target)
  {
    hide Apply, Scan, At;
    var pre, tail := Before(source, d), After(source, target, d);
    if d > 0 { HitAtStart(source); }
    OneHit(pre, source, target, tail);
    RemainingHit(source, target, d);
    SecondChanges(pre + source + tail, source, target);
  }

  lemma HitAtStart<T>(source: seq<T>)
    ensures IndexFrom([] + source, source, 0) == 0
  {
    assert At([] + source, source, 0);
  }

  lemma HitInGap<T>(text: seq<T>, idx: nat, hit: nat, source: seq<T>, more: seq<T>, p: nat)
    requires idx <= hit <= |text| && At(text[idx..hit] + more, source, p) && p + |source| <= hit - idx
    ensures At(text, source, idx + p)
  {
    var o := text[idx..hit] + more;
    forall k | 0 <= k < |source| ensures text[idx + p + k] == source[k] { assert o[p + k] == source[k]; }
  }

  lemma HitBehind<T>(a: seq<T>, more: seq<T>, source: seq<T>, p: nat)
    requires At(a + more, source, p) && |a| <= p
    ensures At(more, source, p - |a|)
  {
    forall k | 0 <= k < |source| ensures more[p - |a| + k] == source[k] { assert (a + more)[p + k] == source[k]; }
  }

  lemma LaidOver<T>(text: seq<T>, hit: nat, source: seq<T>, e: nat, q: nat)
    requires e <= |source| && e <= hit && At(text, source, hit) && At(source[..e] + source, source, q)
    requires forall k :: 0 <= k < e ==> source[k] == text[hit - e + k]
    ensures At(text, source, hit - e + q) || q > e
  {
    if q <= e {
      var overlaid := source[..e] + source;
      forall k | 0 <= k < |source| ensures text[hit - e + q + k] == source[k] {
        assert overlaid[q + k] == source[k];
        if q + k >= e { assert overlaid[q + k] == source[q + k - e] == text[hit + (q + k - e)]; }
      }
    }
  }

  /** A hit that begins before the first hit of `text` and reaches behind it is new. */
  lemma {:induction false} HitFromTheLeft<T>(text: seq<T>, idx: nat, hit: nat, source: seq<T>, e: nat)
    requires IndexFrom(text, source, idx) == hit && idx + e <= hit && e < |source|
    requires forall k :: 0 <= k < e ==> source[k] == text[hit - e + k]
    ensures IndexFrom(source[..e] + source, source, 0) == e
  {
    var overlaid := source[..e] + source;
    FirstHitIsFirst(text, source, idx);
    FirstHitIsFirst(overlaid, source, 0);
    HitAt(text, source, idx);
    HitAt(overlaid, source, 0);
    AtEnd(source[..e], source);
    hide IndexFrom, At;
    var q := IndexFrom(overlaid, source, 0);
    LaidOver(text, hit, source, e, q);
  }

  lemma AtEnd<T>(a: seq<T>, term: seq<T>)
    ensures At(a + term, term, |a|)
  {
  }

  lemma HitAt<T>(text: seq<T>, source: seq<T>, idx: nat)
    ensures IndexFrom(text, source, idx) >= 0 ==> At(text, source, IndexFrom(text, source, idx))
  {
  }

  /** Where a hit begins in the gap before the target, the text was that way already. */
  lemma HitOverGap<T>(text: seq<T>, idx: nat, hit: nat, source: seq<T>, more: seq<T>, p: nat)
    requires idx <= hit <= |text| && At(text[idx..hit] + more, source, p) && p < hit - idx < p + |source|
    ensures forall k :: 0 <= k < hit - idx - p ==> source[k] == text[idx + p + k]
  {
    var o := text[idx..hit] + more;
    forall k | 0 <= k < hit - idx - p ensures source[k] == text[idx + p + k] { assert o[p + k] == text[idx + p + k]; }
  }

  lemma Overlap<T>(gap: seq<T>, source: seq<T>, target: seq<T>, more: seq<T>, p: nat)
    requires At(gap + (target + more), source, p)
    ensures AgreesAt(source, target, p - |gap|)
  {
    var o, d := gap + (target + more), p - |gap|;
    forall k | 0 <= k < |source| && 0 <= d + k < |target| ensures source[k] == target[d + k] {
      assert o[p + k] == source[k] && o[p + k] == target[d + k];
    }
  }

  lemma AgreeAtStart<T>(source: seq<T>, target: seq<T>)
    requires AgreesAt(source, target, 0)
    ensures source <= target || target <= source
  {
  }

  /** A hit that overlaps the target put in for the first hit. */
  lemma {:induction false} OverlappingHit<T>(text: seq<T>, idx: nat, hit: nat, source: seq<T>, target: seq<T>,
                                             more: seq<T>, p: nat)
    requires idx <= hit <= |text| && IndexFrom(text, source, idx) == hit
    requires At(text[idx..hit] + (target + more), source, p)
    requires p < hit - idx + |target| && hit - idx < p + |source|
    ensures source <= target || target <= source || LeavesHit(source, target, p - (hit - idx))
  {
    hide IndexFrom, At, AgreesAt;
    var d := p - (hit - idx);
    Overlap(text[idx..hit], source, target, more, p);
    if d < 0 {
      HitOverGap(text, idx, hit, source, target + more, p);
      HitFromTheLeft(text, idx, hit, source, -d);
    } else if d == 0 {
      AgreeAtStart(source, target);
    }
  }

  /** Without such a place a rewrite leaves no hit behind. */
  lemma {:induction false} NoHitLeft<T>(text: seq<T>, idx: nat, source: seq<T>, target: seq<T>, p: nat)
    requires source != [] && target != [] && !(source <= target) && !(target <= source) && idx <= |text|
    requires forall d :: !LeavesHit(source, target, d)
    ensures !At(Scan(text, idx, source, target), source, p)
    decreases |text| - idx
  {
    hide Scan, IndexFrom, LeavesHit, At;
    ScanStep(text, idx, source, target);
    var hit := IndexFrom(text, source, idx);
    var o := Scan(text, idx, source, target);
    FirstHitIsFirst(text, source, idx);
    AtFits(o, source, p);
    if At(o, source, p) {
      if hit < 0 {
        assert text[idx..|text|] + [] == o;
        HitInGap(text, idx, |text|, source, [], p);
      } else {
        var next := hit + Consumed(text, hit, source, target);
        var gap, more := text[idx..hit], Scan(text, next, source, target);
        assert gap + (target + more) == o;
        if p + |source| <= |gap| {
          HitInGap(text, idx, hit, source, target + more, p);
        } else if p < |gap| + |target| {
          OverlappingHit(text, idx, hit, source, target, more, p);
        } else {
          HitBehind(gap + target, more, source, p);
          NoHitLeft(text, next, source, target, p - |gap| - |target|);
        }
      }
    }
  }

  lemma FirstHitIsFirst<T>(text: seq<T>, source: seq<T>, idx: nat)
    ensures var hit := IndexFrom(text, source, idx);
            && (hit < 0 ==> forall p :: idx <= p ==> !At(text, source, p))
            && (hit >= 0 ==> idx <= hit <= |text| && forall p :: idx <= p < hit ==> !At(text, source, p))
  {
  }

  lemma AtFits<T>(text: seq<T>, term: seq<T>, p: nat)
    ensures At(text, term, p) ==> p + |term| <= |text|
  {
  }

  ghost predicate ExpandsOnce<T>(text: seq<T>, source: seq<T>, target: seq<T>) {
    Apply(Apply(text, source, target), source, target) == Apply(text, source, target)
  }

  lemma {:induction false} StableExpandsOnce<T>(text: seq<T>, source: seq<T>, target: seq<T>)
    requires IsStable(source, target)
    ensures ExpandsOnce(text, source, target)
  {
    hide Scan, At, LeavesHit;
    SecondChanges(text, source, target);
    if text != [] && source != [] && target != [] && !(source <= target) && !(target <= source) {
      var once := Apply(text, source, target);
      forall p: nat ensures !At(once, source, p) { NoHitLeft(text, 0, source, target, p); }
    }
  }

  lemma UnstableExpandsTwice<T>(source: seq<T>, target: seq<T>)
    requires !IsStable(source, target)
    ensures exists text :: !ExpandsOnce(text, source, target)
  {
    var d :| LeavesHit(source, target, d);
    LeavesHitExpandsTwice(source, target, d);
    assert !ExpandsOnce(Before(source, d) + source + After(source, target, d), source, target);
  }

  /** The mappings that expand every text once, exactly. */
  lemma {:induction false} EveryTextExpandsOnceIff<T>(source: seq<T>, target: seq<T>)
    ensures (forall text :: ExpandsOnce(text, source, target)) <==> IsStable(source, target)
  {
    hide *;
    if IsStable(source, target) {
      forall text ensures ExpandsOnce(text, source, target) { StableExpandsOnce(text, source, target); }
    } else {
      UnstableExpandsTwice(source, target);
    }
  }
}
