/** What the page matching guarantees. Pages are followed by a permutation `p`:
    the page that ends at position k started at position p[k]. */
module PreprocessProofs {
  import opened Omr
  import opened Permutations
  import opened Preprocess

  /** Position `k` after swapping `i` and `j`. */
  function Swapped(i: nat, j: nat, k: nat): nat {
    if k == i then j else if k == j then i else k
  }

  /** The pages from `i` on were permuted by `p`; those before it were not touched. */
  ghost predicate Permuted(before: seq<Sheet>, after: seq<Sheet>, i: nat, p: seq<nat>) {
    && |after| == |before| && Permutation(p, |before|)
    && (forall k :: 0 <= k < i && k < |before| ==> p[k] == k && after[k] == before[k])
    && (forall k :: 0 <= k < |before| ==> after[k].mat == before[p[k]].mat)
  }

  /** Template pages `i` and on that have locations recorded got a page that fits. */
  ghost predicate AllSettled<Anchors>(find: Finder<Anchors>, template: seq<Anchors>, before: seq<Sheet>, i: nat,
                                      m: Matching, p: seq<nat>)
    requires Permuted(before, m.sheets, i, p) && i + |m.locations| <= |template| == |before|
  {
    forall k :: i <= k < i + |m.locations|
      ==> Settled(find, template[k], before[p[k]], m.sheets[k], m.locations[k - i])
  }

  /** No page is left, or none of those left fits the next template page and all
      are as they were, or an unexpected error stopped the loop at one of them. */
  ghost predicate Concluded<Anchors>(find: Finder<Anchors>, template: seq<Anchors>, before: seq<Sheet>, done: nat,
                                     m: Matching, p: seq<nat>)
    requires |m.sheets| == |before| == |template| && Permutation(p, |before|)
  {
    match m.error
    case None => done == |before|
    case Some(e) =>
      && done < |before|
      && if e == ErrCannotMatchAnchor then
           forall k :: done <= k < |before| ==> m.sheets[k] == before[p[k]]
                                                && Try(find, before[p[k]].image, template[done]).NoMatch?
         else
           exists culprit :: done <= culprit < |before| && Aborted(find, template[done], before, m, p, done, culprit, e)
  }

  ghost predicate Explained<Anchors>(find: Finder<Anchors>, template: seq<Anchors>, before: seq<Sheet>, i: nat,
                                     m: Matching, p: seq<nat>)
  {
    && Permuted(before, m.sheets, i, p)
    && i + |m.locations| <= |template| == |before|
    && AllSettled(find, template, before, i, m, p)
    && Concluded(find, template, before, i + |m.locations|, m, p)
  }

  /** The page was taken upright if it fits upright, turned only if it does not,
      and the locations are those found on the page as it was left. */
  ghost predicate Settled<Anchors>(find: Finder<Anchors>, anchors: Anchors, before: Sheet, after: Sheet,
                                   found: Locations) {
    && find(after.image, anchors) == Success(found)
    && (after == before || (after == before.Turned() && find(before.image, anchors) == Failure(ErrCannotMatchAnchor)))
  }

  /** The one page that an unexpected error may leave turned. */
  ghost predicate Aborted<Anchors>(find: Finder<Anchors>, anchors: Anchors, before: seq<Sheet>, m: Matching,
                                   p: seq<nat>,
                                   done: nat, culprit: nat, e: Error)
    requires |m.sheets| == |before| && Permutation(p, |before|) && culprit < |before|
  {
    var a := Try(find, before[p[culprit]].image, anchors);
    && a.Abort? && a.error == e
    && m.sheets[culprit] == Handled(before[p[culprit]], a)
    && forall k :: done <= k < |before| && k != culprit ==> m.sheets[k] == before[p[k]]
  }

  lemma StopIsExplained<Anchors>(find: Finder<Anchors>, template: seq<Anchors>, sheets: seq<Sheet>, i: nat, p: seq<nat>)
    requires i < |template| == |sheets| && MatchOne(find, template[i], sheets, i).result.Failure?
    requires p == seq(|sheets|, k => k)
    ensures var step := MatchOne(find, template[i], sheets, i);
            Explained(find, template, sheets, i, Matching(Some(step.result.error), [], step.sheets), p)
  {
    var j := Seek(find, sheets, template[i], i);
    var step := MatchOne(find, template[i], sheets, i);
    if j < |sheets| {
      var m := Matching(Some(step.result.error), [], step.sheets);
      assert Aborted(find, template[i], sheets, m, p, i, j, step.result.error);
      assert Concluded(find, template, sheets, i, m, p);
    }
  }

  /** Soundness: whatever the order, the pages are a permutation of the input and
      every part of the outcome is explained. */
  lemma {:induction false} MatchingIsSound<Anchors>(find: Finder<Anchors>, template: seq<Anchors>,
                                                    sheets: seq<Sheet>, i: nat)
    returns (p: seq<nat>)
    requires i <= |template| == |sheets|
    decreases |template| - i
    ensures Explained(find, template, sheets, i, MatchFrom(find, template, sheets, i), p)
  {
    p := seq(|sheets|, k => k);
    if i < |sheets| {
      hide MatchOne, Explained;
      var step := MatchOne(find, template[i], sheets, i);
      if step.result.Failure? {
        StopIsExplained(find, template, sheets, i, p);
      } else {
        var q := MatchingIsSound(find, template, step.sheets, i + 1);
        p := ThroughSwap(find, template, sheets, i, MatchFrom(find, template, step.sheets, i + 1), q);
      }
    }
  }

  /** Composing a permutation of the later pages with the swap before it. */
  lemma PermuteThroughSwap(sheets: seq<Sheet>, i: nat, j: nat, handled: Sheet, after: seq<Sheet>, q: seq<nat>,
                           p: seq<nat>)
    requires i <= j < |sheets| && handled.mat == sheets[j].mat
    requires Permuted(Swap(sheets[j := handled], i, j), after, i + 1, q)
    requires |p| == |sheets| && forall k :: 0 <= k < |p| ==> p[k] == Swapped(i, j, q[k])
    ensures Permuted(sheets, after, i, p)
    ensures p[i] == j && after[i] == handled
    ensures forall k :: i < k < |sheets| ==> Swap(sheets[j := handled], i, j)[q[k]] == sheets[p[k]]
  {
    assert q[i] == i;
    forall k | i < k < |sheets|
      ensures q[k] != i && Swap(sheets[j := handled], i, j)[q[k]] == sheets[p[k]]
    {
    }
  }

  /** A conclusion about the later pages, where they came from before the swap. */
  lemma ConcludedThroughSwap<Anchors>(find: Finder<Anchors>, template: seq<Anchors>, sheets: seq<Sheet>, swapped: seq<Sheet>,
                                      done: nat, rest: Matching, m: Matching, q: seq<nat>, p: seq<nat>)
    requires |template| == |sheets| == |swapped| == |rest.sheets| && Permutation(p, |sheets|) && Permutation(q, |sheets|)
    requires forall k :: done <= k < |sheets| ==> swapped[q[k]] == sheets[p[k]]
    requires m.sheets == rest.sheets && m.error == rest.error
    requires Concluded(find, template, swapped, done, rest, q)
    ensures Concluded(find, template, sheets, done, m, p)
  {
    hide Try, Handled;
    if m.error.Some? && m.error.value != ErrCannotMatchAnchor {
      var e := m.error.value;
      var culprit :| done <= culprit < |sheets| && Aborted(find, template[done], swapped, rest, q, done, culprit, e);
      assert Aborted(find, template[done], sheets, m, p, done, culprit, e);
    }
  }

  lemma SettledThroughSwap<Anchors>(find: Finder<Anchors>, template: seq<Anchors>, sheets: seq<Sheet>, swapped: seq<Sheet>,
                                    i: nat, rest: Matching, m: Matching, q: seq<nat>, p: seq<nat>)
    requires |template| == |sheets| == |swapped| && m.sheets == rest.sheets
    requires |m.locations| == |rest.locations| + 1 && m.locations[1..] == rest.locations && i + |m.locations| <= |sheets|
    requires Permuted(sheets, m.sheets, i, p) && Permuted(swapped, rest.sheets, i + 1, q)
    requires forall k :: i < k < |sheets| ==> swapped[q[k]] == sheets[p[k]]
    requires Settled(find, template[i], sheets[p[i]], m.sheets[i], m.locations[0])
    requires AllSettled(find, template, swapped, i + 1, rest, q)
    ensures AllSettled(find, template, sheets, i, m, p)
  {
    hide Settled;
    forall k | i < k < i + |m.locations|
      ensures Settled(find, template[k], sheets[p[k]], m.sheets[k], m.locations[k - i])
    {
      assert m.locations[k - i] == rest.locations[k - (i + 1)];
    }
  }

  lemma MatchedBySwap<Anchors>(find: Finder<Anchors>, anchors: Anchors, sheets: seq<Sheet>, i: nat)
    returns (j: nat, handled: Sheet)
    requires i < |sheets| && MatchOne(find, anchors, sheets, i).result.Success?
    ensures var step := MatchOne(find, anchors, sheets, i);
            && i <= j < |sheets| && handled.mat == sheets[j].mat && step.sheets == Swap(sheets[j := handled], i, j)
            && Settled(find, anchors, sheets[j], handled, step.result.value)
  {
    j := Seek(find, sheets, anchors, i);
    handled := Handled(sheets[j], Try(find, sheets[j].image, anchors));
    hide Swap;
  }

  /** Composing an explanation with the swap of the step before it. */
  lemma ThroughSwap<Anchors>(find: Finder<Anchors>, template: seq<Anchors>, sheets: seq<Sheet>, i: nat,
                             rest: Matching, q: seq<nat>)
    returns (p: seq<nat>)
    requires i < |template| == |sheets|
    requires MatchOne(find, template[i], sheets, i).result.Success?
    requires Explained(find, template, MatchOne(find, template[i], sheets, i).sheets, i + 1, rest, q)
    ensures var found := MatchOne(find, template[i], sheets, i).result.value;
            Explained(find, template, sheets, i, rest.(locations := [found] + rest.locations), p)
  {
    hide Swap, Swapped, MatchOne, AllSettled, Concluded, Settled;
    var step := MatchOne(find, template[i], sheets, i);
    var j, handled := MatchedBySwap(find, template[i], sheets, i);
    p := seq(|sheets|, k requires 0 <= k < |sheets| => Swapped(i, j, q[k]));
    var m := rest.(locations := [step.result.value] + rest.locations);
    PermuteThroughSwap(sheets, i, j, handled, m.sheets, q, p);
    SettledThroughSwap(find, template, sheets, step.sheets, i, rest, m, q, p);
    ConcludedThroughSwap(find, template, sheets, step.sheets, i + |m.locations|, rest, m, q, p);
  }

  // ----- The same in terms of pixels and of what FindAnchors returns

  /** The turned page has the pixels of the page in reverse order, both across and down. */
  ghost predicate UpsideDown(before: Image, after: Image, w: nat) {
    && |after| == |before| && Rectangular(after, w) && Rectangular(before, w)
    && forall y, x :: 0 <= y < |before| && 0 <= x < w ==> after[y][x] == before[|before| - 1 - y][w - 1 - x]
  }

  lemma SettledPixels<Anchors>(find: Finder<Anchors>, anchors: Anchors, before: Sheet, after: Sheet, found: Locations, w: nat)
    requires Settled(find, anchors, before, after, found) && Rectangular(before.image, w)
    ensures after.mat == before.mat && find(after.image, anchors) == Success(found)
    ensures after.image == before.image
            || (UpsideDown(before.image, after.image, w) && find(before.image, anchors) == Failure(ErrCannotMatchAnchor))
  {
    RotatePixels(before.image, w);
  }

  /** A page that neither way up has the anchors of this template page, left as it was. */
  ghost predicate FitsNeitherWay<Anchors>(find: Finder<Anchors>, anchors: Anchors, before: Sheet, after: Sheet, w: nat) {
    && after == before && find(before.image, anchors) == Failure(ErrCannotMatchAnchor)
    && exists turned :: UpsideDown(before.image, turned, w) && find(turned, anchors) == Failure(ErrCannotMatchAnchor)
  }

  /** A page on which FindAnchors fails otherwise: it is left as it was, or upside down if
      that happens on the second attempt. */
  ghost predicate Breaks<Anchors>(find: Finder<Anchors>, anchors: Anchors, before: Sheet, after: Sheet, w: nat, e: Error) {
    && after.mat == before.mat && find(after.image, anchors) == Failure(e)
    && (after.image == before.image
        || (UpsideDown(before.image, after.image, w) && find(before.image, anchors) == Failure(ErrCannotMatchAnchor)))
  }

  /** The pages left over: there are none, or all of them fit neither way up, or
      FindAnchors breaks on one of them and the others are as they were. */
  ghost predicate LeftOver<Anchors>(find: Finder<Anchors>, template: seq<Anchors>, before: seq<Sheet>, after: seq<Sheet>,
                                    p: seq<nat>, done: nat, error: Option<Error>, w: nat)
    requires |template| == |before| == |after| && Permutation(p, |before|)
  {
    if error.None? then done == |before|
    else
      && done < |before|
      && if error.value == ErrCannotMatchAnchor then
           forall k :: done <= k < |before| ==> FitsNeitherWay(find, template[done], before[p[k]], after[k], w)
         else
           exists c :: done <= c < |before| && Breaks(find, template[done], before[p[c]], after[c], w, error.value)
                       && forall k :: done <= k < |before| && k != c ==> after[k] == before[p[k]]
  }

  lemma NoMatchPixels<Anchors>(find: Finder<Anchors>, anchors: Anchors, sheet: Sheet, w: nat)
    requires Try(find, sheet.image, anchors).NoMatch? && Rectangular(sheet.image, w)
    ensures FitsNeitherWay(find, anchors, sheet, sheet, w)
  {
    RotatePixels(sheet.image, w);
    assert UpsideDown(sheet.image, Rotate180(sheet.image), w);
  }

  lemma AbortPixels<Anchors>(find: Finder<Anchors>, anchors: Anchors, before: Sheet, w: nat)
    requires Try(find, before.image, anchors).Abort? && Rectangular(before.image, w)
    ensures var a := Try(find, before.image, anchors);
            Breaks(find, anchors, before, Handled(before, a), w, a.error)
  {
    RotatePixels(before.image, w);
  }

  lemma LeftOverPixels<Anchors>(find: Finder<Anchors>, template: seq<Anchors>, before: seq<Sheet>, done: nat, m: Matching,
                                p: seq<nat>, w: nat)
    requires |m.sheets| == |before| == |template| && Permutation(p, |before|) && Concluded(find, template, before, done, m, p)
    requires forall k :: 0 <= k < |before| ==> Rectangular(before[k].image, w)
    ensures LeftOver(find, template, before, m.sheets, p, done, m.error, w)
  {
    hide Try, FitsNeitherWay, Breaks, Rectangular, Handled;
    match m.error
    case None =>
    case Some(e) =>
      if e == ErrCannotMatchAnchor {
        forall k | done <= k < |before|
          ensures FitsNeitherWay(find, template[done], before[p[k]], m.sheets[k], w)
        {
          NoMatchPixels(find, template[done], before[p[k]], w);
        }
      } else {
        var c :| done <= c < |before| && Aborted(find, template[done], before, m, p, done, c, e);
        AbortPixels(find, template[done], before[p[c]], w);
      }
  }

  /** Each page that the loop leaves matched is a page of the input, the same pixel for
      pixel, or upside down if it does not fit as it was. The pages left over are as they
      were, but for one on which FindAnchors broke. */
  lemma MatchedByPixels<Anchors>(find: Finder<Anchors>, template: seq<Anchors>, sheets: seq<Sheet>, w: nat)
    returns (p: seq<nat>)
    requires |template| == |sheets| && forall k :: 0 <= k < |sheets| ==> Rectangular(sheets[k].image, w)
    ensures var m := MatchFrom(find, template, sheets, 0);
            && Permutation(p, |sheets|) && |m.sheets| == |sheets| && |m.locations| <= |sheets|
            && (forall k :: 0 <= k < |m.locations| ==>
                  var before, after := sheets[p[k]], m.sheets[k];
                  && after.mat == before.mat && find(after.image, template[k]) == Success(m.locations[k])
                  && (after.image == before.image
                      || (UpsideDown(before.image, after.image, w)
                          && find(before.image, template[k]) == Failure(ErrCannotMatchAnchor))))
            && LeftOver(find, template, sheets, m.sheets, p, |m.locations|, m.error, w)
  {
    p := MatchingIsSound(find, template, sheets, 0);
    var m := MatchFrom(find, template, sheets, 0);
    hide MatchFrom, Settled, Concluded, UpsideDown, Rectangular, LeftOver;
    LeftOverPixels(find, template, sheets, |m.locations|, m, p, w);
    forall k | 0 <= k < |m.locations|
      ensures var before, after := sheets[p[k]], m.sheets[k];
              && after.mat == before.mat && find(after.image, template[k]) == Success(m.locations[k])
              && (after.image == before.image
                  || (UpsideDown(before.image, after.image, w)
                      && find(before.image, template[k]) == Failure(ErrCannotMatchAnchor)))
    {
      SettledPixels(find, template[k], sheets[p[k]], m.sheets[k], m.locations[k], w);
    }
  }

  /** What an attempt says about the page, either way up. */
  lemma AttemptExactly<Anchors>(find: Finder<Anchors>, image: Image, anchors: Anchors)
    ensures var a, upright, turned := Try(find, image, anchors), find(image, anchors), find(Rotate180(image), anchors);
            && (a.Upright? <==> upright.Success?) && (a.Upright? ==> a.locations == upright.value)
            && (a.Inverted? <==> upright == Failure(ErrCannotMatchAnchor) && turned.Success?)
            && (a.Inverted? ==> a.locations == turned.value)
            && (a.NoMatch? <==> upright == turned == Failure(ErrCannotMatchAnchor))
            && (a.Abort? ==> Failure(a.error) == if a.turned then turned else upright)
            && (a.Abort? && a.turned ==> upright == Failure(ErrCannotMatchAnchor))
  {
  }

  // ----- From which orders the greedy loop succeeds

  ghost predicate Fits<Anchors>(find: Finder<Anchors>, sheet: Sheet, anchors: Anchors) {
    Try(find, sheet.image, anchors).Fits()
  }

  /** FindAnchors only ever fails with ErrCannotMatchAnchor. */
  ghost predicate NoOtherErrors<Anchors>(find: Finder<Anchors>, template: seq<Anchors>, sheets: seq<Sheet>) {
    forall k, m :: 0 <= k < |template| && 0 <= m < |sheets| ==> !Try(find, sheets[m].image, template[k]).Abort?
  }

  /** Different pages chosen for the first template pages, each fitting. */
  ghost predicate PartialChoice<Anchors>(find: Finder<Anchors>, template: seq<Anchors>, sheets: seq<Sheet>,
                                         chosen: seq<nat>) {
    && |chosen| <= |template| == |sheets|
    && (forall k :: 0 <= k < |chosen| ==> chosen[k] < |sheets| && Fits(find, sheets[chosen[k]], template[k]))
    && Injective(chosen)
  }

  /** However the first pages were chosen, some page is left for the next one. */
  ghost predicate NeverStuck<Anchors>(find: Finder<Anchors>, template: seq<Anchors>, sheets: seq<Sheet>) {
    forall chosen :: PartialChoice(find, template, sheets, chosen) && |chosen| < |template| ==>
      exists m :: 0 <= m < |sheets| && m !in chosen && Fits(find, sheets[m], template[|chosen|])
  }

  function Reordered(sheets: seq<Sheet>, order: seq<nat>): (r: seq<Sheet>)
    requires forall k :: 0 <= k < |order| ==> order[k] < |sheets|
    ensures |r| == |order| && forall k :: 0 <= k < |r| ==> r[k] == sheets[order[k]]
  {
    seq(|order|, k requires 0 <= k < |order| => sheets[order[k]])
  }

  lemma SettledFits<Anchors>(find: Finder<Anchors>, anchors: Anchors, before: Sheet, after: Sheet, found: Locations)
    requires Settled(find, anchors, before, after, found)
    ensures Fits(find, before, anchors)
  {
  }

  /** Giving up: the pages placed so far fit, and those left do not fit the next. */
  lemma GivesUp<Anchors>(find: Finder<Anchors>, template: seq<Anchors>, input: seq<Sheet>) returns (p: seq<nat>,
                         done: nat)
    requires |template| == |input| && NoOtherErrors(find, template, input)
    requires MatchFrom(find, template, input, 0).error.Some?
    ensures Permutation(p, |input|) && done < |input|
    ensures forall k :: 0 <= k < done ==> Fits(find, input[p[k]], template[k])
    ensures forall k :: done <= k < |input| ==> !Fits(find, input[p[k]], template[done])
  {
    var m := MatchFrom(find, template, input, 0);
    p := MatchingIsSound(find, template, input, 0);
    hide MatchFrom, Try, Settled, Handled;
    done := |m.locations|;
    assert m.error == Some(ErrCannotMatchAnchor);
    forall k | 0 <= k < done
      ensures Fits(find, input[p[k]], template[k])
    {
      assert m.locations[k - 0] == m.locations[k];
      SettledFits(find, template[k], input[p[k]], m.sheets[k], m.locations[k]);
    }
  }

  /** When the greedy loop gives up, the pages it placed are a choice that is stuck. */
  lemma FailureIsStuck<Anchors>(find: Finder<Anchors>, template: seq<Anchors>, sheets: seq<Sheet>, order: seq<nat>)
    requires |template| == |sheets| && Permutation(order, |sheets|)
    requires NoOtherErrors(find, template, sheets)
    requires MatchFrom(find, template, Reordered(sheets, order), 0).error.Some?
    ensures !NeverStuck(find, template, sheets)
  {
    var p, done := GivesUp(find, template, Reordered(sheets, order));
    var chosen := seq(done, k requires 0 <= k < done => order[p[k]]);
    hide *;
    forall v | 0 <= v < |sheets| && Fits(find, sheets[v], template[done])
      ensures v in chosen
    {
      var k := FinalPlace(order, p, |sheets|, v);
      assert k < done;
      assert chosen[k] == v;
    }
    PlacedPages(find, template, sheets, order, p, chosen);
    StuckChoice(find, template, sheets, chosen);
  }

  lemma PlacedPages<Anchors>(find: Finder<Anchors>, template: seq<Anchors>, sheets: seq<Sheet>,
                             order: seq<nat>, p: seq<nat>, chosen: seq<nat>)
    requires |template| == |sheets| && Permutation(order, |sheets|) && Permutation(p, |sheets|) && |chosen| <= |sheets|
    requires forall k :: 0 <= k < |chosen| ==> chosen[k] == order[p[k]]
                                               && Fits(find, Reordered(sheets, order)[p[k]], template[k])
    ensures PartialChoice(find, template, sheets, chosen)
  {
    hide Fits;
  }

  lemma StuckChoice<Anchors>(find: Finder<Anchors>, template: seq<Anchors>, sheets: seq<Sheet>, chosen: seq<nat>)
    requires PartialChoice(find, template, sheets, chosen) && |chosen| < |template|
    requires forall v :: 0 <= v < |sheets| && Fits(find, sheets[v], template[|chosen|]) ==> v in chosen
    ensures !NeverStuck(find, template, sheets)
  {
  }

  /** Where a page ends after being listed by `order` and permuted by `p`. */
  lemma FinalPlace(order: seq<nat>, p: seq<nat>, n: nat, v: nat) returns (k: nat)
    requires Permutation(order, n) && Permutation(p, n) && v < n
    ensures k < n && order[p[k]] == v
  {
    PermutationOnto(order, n, v);
    var x :| 0 <= x < n && order[x] == v;
    PermutationOnto(p, n, x);
    k :| 0 <= k < n && p[k] == x;
  }

  /** Pages listed in the order of a stuck choice are taken in that order. */
  lemma {:induction false} FollowsOrder<Anchors>(find: Finder<Anchors>, template: seq<Anchors>, sheets: seq<Sheet>,
                                                 i: nat, stuck: nat)
    requires i <= stuck < |template| == |sheets|
    requires forall k :: i <= k < stuck ==> Fits(find, sheets[k], template[k])
    requires forall k :: stuck <= k < |sheets| ==> Try(find, sheets[k].image, template[stuck]).NoMatch?
    decreases stuck - i
    ensures MatchFrom(find, template, sheets, i).error == Some(ErrCannotMatchAnchor)
  {
    if i < stuck {
      assert Seek(find, sheets, template[i], i) == i;
      var step := MatchOne(find, template[i], sheets, i);
      assert forall k :: i < k < |sheets| ==> step.sheets[k] == sheets[k];
      FollowsOrder(find, template, step.sheets, i + 1, stuck);
    }
  }

  lemma StuckIsFailure<Anchors>(find: Finder<Anchors>, template: seq<Anchors>,
                                sheets: seq<Sheet>) returns (order: seq<nat>)
    requires |template| == |sheets| && NoOtherErrors(find, template, sheets)
    requires !NeverStuck(find, template, sheets)
    ensures Permutation(order, |sheets|) && MatchFrom(find, template, Reordered(sheets, order), 0).error.Some?
  {
    var chosen :| PartialChoice(find, template, sheets, chosen) && |chosen| < |template|
                  && forall m :: 0 <= m < |sheets| && m !in chosen ==> !Fits(find, sheets[m], template[|chosen|]);
    order := Completed(chosen, |sheets|);
    var input := Reordered(sheets, order);
    forall k | |chosen| <= k < |sheets|
      ensures Try(find, input[k].image, template[|chosen|]).NoMatch?
    {
      assert order[k] !in chosen;
    }
    FollowsOrder(find, template, input, 0, |chosen|);
  }

  ghost predicate SucceedsFromEveryOrder<Anchors>(find: Finder<Anchors>, template: seq<Anchors>, sheets: seq<Sheet>)
    requires |template| == |sheets|
  {
    forall order :: Permutation(order, |sheets|) ==> MatchFrom(find, template, Reordered(sheets, order), 0).error.None?
  }

  /** The greedy loop succeeds from every order of the pages exactly when no
      choice for the first template pages can get stuck. */
  lemma GreedySucceedsExactly<Anchors>(find: Finder<Anchors>, template: seq<Anchors>, sheets: seq<Sheet>)
    requires |template| == |sheets| && NoOtherErrors(find, template, sheets)
    ensures SucceedsFromEveryOrder(find, template, sheets) <==> NeverStuck(find, template, sheets)
  {
    if NeverStuck(find, template, sheets) {
      forall order | Permutation(order, |sheets|)
        ensures MatchFrom(find, template, Reordered(sheets, order), 0).error.None?
      {
        if MatchFrom(find, template, Reordered(sheets, order), 0).error.Some? {
          FailureIsStuck(find, template, sheets, order);
        }
      }
    } else {
      var order := StuckIsFailure(find, template, sheets);
    }
  }

  /** Page `b[k]`, and no other, fits template page `k`. */
  ghost predicate Exclusive<Anchors>(find: Finder<Anchors>, template: seq<Anchors>, sheets: seq<Sheet>, b: seq<nat>) {
    && |template| == |sheets| && Permutation(b, |sheets|)
    && forall k, m :: 0 <= k < |template| && 0 <= m < |sheets| ==> (Fits(find, sheets[m], template[k]) <==> m == b[k])
  }

  /** Exclusive pages are matched from every order, each with its own template page. */
  lemma ExclusivePagesAreMatched<Anchors>(find: Finder<Anchors>, template: seq<Anchors>, sheets: seq<Sheet>,
                                          b: seq<nat>, order: seq<nat>)
    requires Exclusive(find, template, sheets, b) && NoOtherErrors(find, template, sheets)
    requires Permutation(order, |sheets|)
    ensures var m := MatchFrom(find, template, Reordered(sheets, order), 0);
            && m.error.None? && |m.sheets| == |m.locations| == |sheets|
            && forall k :: 0 <= k < |sheets| ==>
                 && m.sheets[k].mat == sheets[b[k]].mat
                 && find(m.sheets[k].image, template[k]) == Success(m.locations[k])
  {
    forall chosen | PartialChoice(find, template, sheets, chosen) && |chosen| < |template|
      ensures exists m :: 0 <= m < |sheets| && m !in chosen && Fits(find, sheets[m], template[|chosen|])
    {
      assert forall k :: 0 <= k < |chosen| ==> chosen[k] == b[k];
      assert b[|chosen|] !in chosen;
    }
    var input := Reordered(sheets, order);
    if MatchFrom(find, template, input, 0).error.Some? {
      FailureIsStuck(find, template, sheets, order);
    }
    var m := MatchFrom(find, template, input, 0);
    var p := MatchingIsSound(find, template, input, 0);
    hide MatchFrom;
    forall k | 0 <= k < |sheets|
      ensures m.sheets[k].mat == sheets[b[k]].mat && find(m.sheets[k].image, template[k]) == Success(m.locations[k])
    {
      assert m.locations[k - 0] == m.locations[k];
      SettledFits(find, template[k], input[p[k]], m.sheets[k], m.locations[k]);
    }
  }

  /** Without exclusivity the greedy loop is incomplete: page 0 fits both template
      pages and page 1 only the first, so the assignment 1, 0 exists and is found
      from one order, but not from the other. */
  lemma GreedyIsIncomplete(x: Mat, y: Mat)
    ensures var find: Finder<nat> := (image, t) => if image == [[1]] || (image == [[2]] && t == 0) then Success([])
                                                   else Failure(ErrCannotMatchAnchor);
            var sheets := [Sheet(x, [[1]]), Sheet(y, [[2]])];
            && PartialChoice(find, [0, 1], sheets, [1, 0])
            && MatchFrom(find, [0, 1], sheets, 0).error == Some(ErrCannotMatchAnchor)
            && MatchFrom(find, [0, 1], Reordered(sheets, [1, 0]), 0).error.None?
  {
    var find: Finder<nat> := (image, t) => if image == [[1]] || (image == [[2]] && t == 0) then Success([])
                                           else Failure(ErrCannotMatchAnchor);
    var sheets := [Sheet(x, [[1]]), Sheet(y, [[2]])];
    var second: Image := [[2]];
    assert Rotate180(second)[0] == Reverse(second[0]) == second[0];
    assert Rotate180(second) == second;
    FollowsOrder(find, [0, 1], sheets, 0, 1);
    var swapped := Reordered(sheets, [1, 0]);
    assert Seek(find, swapped, 0, 0) == 0;
    var first := MatchOne(find, 0, swapped, 0);
    assert first.sheets[1] == sheets[0];
    assert Seek(find, first.sheets, 1, 1) == 1;
  }
}
