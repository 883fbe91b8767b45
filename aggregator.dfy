/**
 * The result aggregator of the search endpoint (app/api/search/route.ts,
 * lines 51-82): walk the hits in index order, skip every hit whose href was
 * already kept, format each kept hit, stop once the result count reaches
 * top_k, and report the count in the answer string.
 */
module Aggregator {
  import opened Options
  import opened Hits
  import Decimal

  /*** The loop, as a recursive specification and as the imperative method ***/

  /**
   * What the loop pushes from position `i` onwards, when `seen` holds the hrefs
   * kept so far and `room` is top_k minus the number of results pushed so far.
   * The `break` is tested after the push, so a new href is always pushed once.
   */
  function KeepFrom<S>(hits: seq<Hit<S>>, i: nat, seen: set<string>, room: int): (r: seq<SearchResult<S>>)
    requires i <= |hits|
    ensures |r| <= |hits| - i
    ensures forall n :: 0 <= n < |r| ==> r[n].href !in seen
    ensures forall a, b :: 0 <= a < b < |r| ==> r[a].href != r[b].href
    decreases |hits| - i
  {
    if i == |hits| then []
    else if Key(hits[i]) in seen then KeepFrom(hits, i + 1, seen, room)
    else
      [Format(hits[i])] +
      (if room <= 1 then [] else KeepFrom(hits, i + 1, seen + {Key(hits[i])}, room - 1))
  }

  /** The `results` array the endpoint returns for `hits` and `top_k`: no href occurs twice. */
  function Aggregate<S>(hits: seq<Hit<S>>, topK: int): (r: seq<SearchResult<S>>)
    ensures forall a, b :: 0 <= a < b < |r| ==> r[a].href != r[b].href
    ensures hits == [] ==> r == []
  {
    KeepFrom(hits, 0, {}, topK)
  }

  /** The `for` loop over the hits with its `seenHrefs` set, `continue` and `break`. */
  method CollectResults<S>(hits: seq<Hit<S>>, topK: int) returns (results: seq<SearchResult<S>>)
    ensures results == Aggregate(hits, topK)
  {
    ghost var target := Aggregate(hits, topK);
    results := [];
    var seenHrefs: set<string> := {};
    for i := 0 to |hits|
      invariant results + KeepFrom(hits, i, seenHrefs, topK - |results|) == target
    {
      var href := Key(hits[i]);
      if href in seenHrefs {
        SkipStep(hits, i, seenHrefs, topK - |results|);
        continue;
      }
      if |results| + 1 >= topK {
        PushLast(hits, i, seenHrefs, results, topK - |results|, target);
      } else {
        PushMore(hits, i, seenHrefs, results, topK - |results|, target);
      }
      seenHrefs := seenHrefs + {href};
      results := results + [Format(hits[i])];
      if |results| >= topK {
        break;
      }
    }
  }

  /** Skipping a hit whose href was already kept leaves the rest of the loop unchanged. */
  lemma SkipStep<S>(hits: seq<Hit<S>>, i: nat, seen: set<string>, room: int)
    requires i < |hits| && Key(hits[i]) in seen
    ensures KeepFrom(hits, i, seen, room) == KeepFrom(hits, i + 1, seen, room)
  {
  }

  /** Pushing a hit with a new href when it fills the last slot: the results are final. */
  lemma PushLast<S>(hits: seq<Hit<S>>, i: nat, seen: set<string>, results: seq<SearchResult<S>>, room: int,
                    target: seq<SearchResult<S>>)
    requires i < |hits| && Key(hits[i]) !in seen && room <= 1
    requires results + KeepFrom(hits, i, seen, room) == target
    ensures results + [Format(hits[i])] == target
  {
    PushUnfold(hits, i, seen, room);
  }

  /** Pushing a hit with a new href while room is left: the loop goes on with its href seen. */
  lemma PushMore<S>(hits: seq<Hit<S>>, i: nat, seen: set<string>, results: seq<SearchResult<S>>, room: int,
                    target: seq<SearchResult<S>>)
    requires i < |hits| && Key(hits[i]) !in seen && room > 1
    requires results + KeepFrom(hits, i, seen, room) == target
    ensures (results + [Format(hits[i])]) + KeepFrom(hits, i + 1, seen + {Key(hits[i])}, room - 1) == target
  {
    PushUnfold(hits, i, seen, room);
    var rest := KeepFrom(hits, i + 1, seen + {Key(hits[i])}, room - 1);
    assert results + ([Format(hits[i])] + rest) == (results + [Format(hits[i])]) + rest;
  }

  /** One unfolding of the loop at a hit whose href is new: it is pushed, then the loop goes on unless room is used up. */
  lemma PushUnfold<S>(hits: seq<Hit<S>>, i: nat, seen: set<string>, room: int)
    requires i < |hits| && Key(hits[i]) !in seen
    ensures KeepFrom(hits, i, seen, room) ==
      [Format(hits[i])] + (if room <= 1 then [] else KeepFrom(hits, i + 1, seen + {Key(hits[i])}, room - 1))
  {
  }

  /*** An index-based reference definition of what is kept ***/

  /** Hit `j` is the first hit that carries its (normalised) href. */
  ghost predicate IsFirst<S>(hits: seq<Hit<S>>, j: int) {
    0 <= j < |hits| && forall i :: 0 <= i < j ==> Key(hits[i]) != Key(hits[j])
  }

  ghost function FirstIndicesFrom<S>(hits: seq<Hit<S>>, from: nat): (idx: seq<nat>)
    requires from <= |hits|
    ensures forall n :: 0 <= n < |idx| ==> from <= idx[n] && IsFirst(hits, idx[n])
    ensures forall a, b :: 0 <= a < b < |idx| ==> idx[a] < idx[b]
    ensures forall j :: from <= j && IsFirst(hits, j) ==> j in idx
    decreases |hits| - from
  {
    if from == |hits| then []
    else (if IsFirst(hits, from) then [from] else []) + FirstIndicesFrom(hits, from + 1)
  }

  /** The positions of the first hit of every distinct href, in increasing order. */
  ghost function FirstIndices<S>(hits: seq<Hit<S>>): (idx: seq<nat>)
    ensures forall a, b :: 0 <= a < b < |idx| ==> idx[a] < idx[b]
    ensures forall j :: IsFirst(hits, j) <==> j in idx
  {
    FirstIndicesFrom(hits, 0)
  }

  /** The distinct normalised hrefs among the hits. */
  ghost function KeySet<S>(hits: seq<Hit<S>>): set<string> {
    set i | 0 <= i < |hits| :: Key(hits[i])
  }

  ghost function KeysBefore<S>(hits: seq<Hit<S>>, i: nat): set<string>
    requires i <= |hits|
  {
    set j | 0 <= j < i :: Key(hits[j])
  }

  /** The results formatted from the hits at the positions `idx`, in that order. */
  ghost function FormatAt<S>(hits: seq<Hit<S>>, idx: seq<nat>): (r: seq<SearchResult<S>>)
    requires forall n :: 0 <= n < |idx| ==> idx[n] < |hits|
  {
    seq(|idx|, n requires 0 <= n < |idx| => Format(hits[idx[n]]))
  }

  /** At least one result is pushed before `break` can fire. */
  function Cap(topK: int): int {
    if topK < 1 then 1 else topK
  }

  /*** The loop keeps exactly the first carriers, up to the cap ***/

  lemma KeysBeforeStep<S>(hits: seq<Hit<S>>, i: nat)
    requires i < |hits|
    ensures KeysBefore(hits, i + 1) == KeysBefore(hits, i) + {Key(hits[i])}
    ensures Key(hits[i]) in KeysBefore(hits, i) <==> !IsFirst(hits, i)
  {
    assert forall k :: k in KeysBefore(hits, i + 1) ==> k in KeysBefore(hits, i) + {Key(hits[i])};
  }

  /** The first `Cap(room)` first-carrier positions from `from` onwards. */
  ghost function CappedFirsts<S>(hits: seq<Hit<S>>, from: nat, room: int): (c: seq<nat>)
    requires from <= |hits|
    ensures forall n :: 0 <= n < |c| ==> c[n] < |hits|
  {
    var idx := FirstIndicesFrom(hits, from);
    idx[..Min(Cap(room), |idx|)]
  }

  lemma CappedFirstsStep<S>(hits: seq<Hit<S>>, i: nat, room: int)
    requires i < |hits|
    ensures !IsFirst(hits, i) ==> CappedFirsts(hits, i, room) == CappedFirsts(hits, i + 1, room)
    ensures IsFirst(hits, i) && room <= 1 ==> CappedFirsts(hits, i, room) == [i]
    ensures IsFirst(hits, i) && room > 1 ==>
      CappedFirsts(hits, i, room) == [i] + CappedFirsts(hits, i + 1, room - 1)
  {
    var rest := FirstIndicesFrom(hits, i + 1);
    if IsFirst(hits, i) {
      assert FirstIndicesFrom(hits, i) == [i] + rest;
    } else {
      assert FirstIndicesFrom(hits, i) == rest;
    }
  }

  lemma FormatAtCons<S>(hits: seq<Hit<S>>, i: nat, rest: seq<nat>)
    requires i < |hits| && forall n :: 0 <= n < |rest| ==> rest[n] < |hits|
    ensures FormatAt(hits, [i] + rest) == [Format(hits[i])] + FormatAt(hits, rest)
  {
    assert ([i] + rest)[1..] == rest;
  }

  lemma KeepFromStep<S>(hits: seq<Hit<S>>, i: nat, room: int)
    requires i < |hits|
    ensures var seen := KeysBefore(hits, i);
      var seen' := KeysBefore(hits, i + 1);
      (!IsFirst(hits, i) ==> KeepFrom(hits, i, seen, room) == KeepFrom(hits, i + 1, seen', room)) &&
      (IsFirst(hits, i) ==>
        KeepFrom(hits, i, seen, room) ==
          [Format(hits[i])] + (if room <= 1 then [] else KeepFrom(hits, i + 1, seen', room - 1)))
  {
    var seen := KeysBefore(hits, i);
    KeysBeforeStep(hits, i);
    if !IsFirst(hits, i) {
      assert seen + {Key(hits[i])} == seen;
    }
  }

  /** The claim of KeepFromFirsts at one position. */
  ghost predicate KeepsFirsts<S>(hits: seq<Hit<S>>, i: nat, room: int)
    requires i <= |hits|
  {
    KeepFrom(hits, i, KeysBefore(hits, i), room) == FormatAt(hits, CappedFirsts(hits, i, room))
  }

  lemma KeepsFirstsSkip<S>(hits: seq<Hit<S>>, i: nat, room: int)
    requires i < |hits| && !IsFirst(hits, i) && KeepsFirsts(hits, i + 1, room)
    ensures KeepsFirsts(hits, i, room)
  {
    KeepFromStep(hits, i, room);
    CappedFirstsStep(hits, i, room);
  }

  lemma KeepsFirstsLast<S>(hits: seq<Hit<S>>, i: nat, room: int)
    requires i < |hits| && IsFirst(hits, i) && room <= 1
    ensures KeepsFirsts(hits, i, room)
  {
    KeepFromStep(hits, i, room);
    CappedFirstsStep(hits, i, room);
    FormatAtCons(hits, i, []);
    assert [i] + [] == [i];
  }

  lemma KeepsFirstsPush<S>(hits: seq<Hit<S>>, i: nat, room: int)
    requires i < |hits| && IsFirst(hits, i) && room > 1 && KeepsFirsts(hits, i + 1, room - 1)
    ensures KeepsFirsts(hits, i, room)
  {
    KeepFromStep(hits, i, room);
    CappedFirstsStep(hits, i, room);
    FormatAtCons(hits, i, CappedFirsts(hits, i + 1, room - 1));
  }

  lemma {:induction false} KeepFromFirsts<S>(hits: seq<Hit<S>>, i: nat, room: int)
    requires i <= |hits|
    ensures KeepFrom(hits, i, KeysBefore(hits, i), room) == FormatAt(hits, CappedFirsts(hits, i, room))
    decreases |hits| - i
  {
    if i == |hits| {
    } else if !IsFirst(hits, i) {
      KeepFromFirsts(hits, i + 1, room);
      KeepsFirstsSkip(hits, i, room);
    } else if room <= 1 {
      KeepsFirstsLast(hits, i, room);
    } else {
      KeepFromFirsts(hits, i + 1, room - 1);
      KeepsFirstsPush(hits, i, room);
    }
  }

  /**
   * Result `n` is the formatted first hit of the `n`-th distinct href, in hit
   * order; there are as many results as distinct hrefs, capped at top_k (at
   * least one).
   */
  lemma AggregateFromFirstCarriers<S>(hits: seq<Hit<S>>, topK: int)
    ensures var r := Aggregate(hits, topK); var idx := FirstIndices(hits);
      |r| == Min(Cap(topK), |idx|) &&
      forall n :: 0 <= n < |r| ==> r[n] == Format(hits[idx[n]])
  {
    KeepFromFirsts(hits, 0, topK);
    assert KeysBefore(hits, 0) == {};
  }

  /** Every href among the hits has a first carrier at or before any of its hits. */
  lemma FirstCarrierExists<S>(hits: seq<Hit<S>>, i: nat)
    requires i < |hits|
    ensures exists j :: 0 <= j <= i && IsFirst(hits, j) && Key(hits[j]) == Key(hits[i])
    decreases i
  {
    if !IsFirst(hits, i) {
      var i' :| 0 <= i' < i && Key(hits[i']) == Key(hits[i]);
      FirstCarrierExists(hits, i');
    }
  }

  lemma {:induction false} DistinctCard(ks: seq<string>)
    requires forall a, b :: 0 <= a < b < |ks| ==> ks[a] != ks[b]
    ensures |set n | 0 <= n < |ks| :: ks[n]| == |ks|
  {
    if ks != [] {
      var init := ks[..|ks| - 1];
      DistinctCard(init);
      assert (set n | 0 <= n < |ks| :: ks[n]) == (set n | 0 <= n < |init| :: init[n]) + {ks[|ks| - 1]};
    }
  }

  /** The hrefs of the first carriers, in order. */
  ghost function FirstKeys<S>(hits: seq<Hit<S>>): (ks: seq<string>)
    ensures |ks| == |FirstIndices(hits)|
    ensures forall n :: 0 <= n < |ks| ==> ks[n] == Key(hits[FirstIndices(hits)[n]])
  {
    var idx := FirstIndices(hits);
    seq(|idx|, n requires 0 <= n < |idx| => Key(hits[idx[n]]))
  }

  lemma FirstKeysDistinct<S>(hits: seq<Hit<S>>)
    ensures var ks := FirstKeys(hits); forall a, b :: 0 <= a < b < |ks| ==> ks[a] != ks[b]
  {
    var idx := FirstIndices(hits);
    var ks := FirstKeys(hits);
    forall a, b | 0 <= a < b < |ks| ensures ks[a] != ks[b] {
      assert idx[a] < idx[b] && IsFirst(hits, idx[b]);
    }
  }

  lemma FirstKeysCover<S>(hits: seq<Hit<S>>)
    ensures var ks := FirstKeys(hits); (set n | 0 <= n < |ks| :: ks[n]) == KeySet(hits)
  {
    var idx := FirstIndices(hits);
    var ks := FirstKeys(hits);
    forall k | k in KeySet(hits) ensures k in (set n | 0 <= n < |ks| :: ks[n]) {
      var i :| 0 <= i < |hits| && Key(hits[i]) == k;
      FirstCarrierExists(hits, i);
      var j :| 0 <= j <= i && IsFirst(hits, j) && Key(hits[j]) == k;
      assert j in idx;
      var n :| 0 <= n < |idx| && idx[n] == j;
      assert ks[n] == k;
    }
  }

  /** There is one first carrier per distinct href. */
  lemma FirstIndicesCount<S>(hits: seq<Hit<S>>)
    ensures |FirstIndices(hits)| == |KeySet(hits)|
  {
    FirstKeysDistinct(hits);
    FirstKeysCover(hits);
    DistinctCard(FirstKeys(hits));
  }

  /**
   * Length bound: with top_k >= 1 the endpoint returns min(top_k, number of
   * distinct hrefs) results; with top_k <= 0 it still returns one result as
   * soon as there is a hit, because `break` is tested after the push.
   */
  lemma AggregateLength<S>(hits: seq<Hit<S>>, topK: int)
    ensures var r := Aggregate(hits, topK);
      (topK >= 1 ==> |r| == Min(topK, |KeySet(hits)|)) &&
      (topK <= 0 ==> |r| == Min(1, |hits|)) &&
      |r| <= Cap(topK)
  {
    AggregateFromFirstCarriers(hits, topK);
    FirstIndicesCount(hits);
    if hits != [] {
      assert IsFirst(hits, 0);
      assert 0 in FirstIndices(hits);
    }
  }

  /*** The answer string ***/

  const FoundPrefix := "Found "
  const FoundSuffix := " relevant pages"

  /** `Found N relevant pages` when there are results, null otherwise (lines 79-81). */
  function Answer(count: nat): (a: Option<string>)
    ensures a.None? <==> count == 0
  {
    if count > 0 then Some(FoundPrefix + Decimal.FromNat(count) + FoundSuffix) else None
  }

  /** The count a `Found N relevant pages` message reports, if the string has that form. */
  function CountInAnswer(s: string): Option<nat> {
    if |s| >= |FoundPrefix| + |FoundSuffix| && s[..|FoundPrefix|] == FoundPrefix &&
       s[|s| - |FoundSuffix|..] == FoundSuffix &&
       Decimal.IsNumeral(s[|FoundPrefix|..|s| - |FoundSuffix|])
    then Some(Decimal.ToNat(s[|FoundPrefix|..|s| - |FoundSuffix|]))
    else None
  }

  /** The answer message reports exactly the number of results. */
  lemma AnswerReportsCount(count: nat)
    requires count > 0
    ensures Answer(count).Some? && CountInAnswer(Answer(count).value) == Some(count)
  {
    var digits := Decimal.FromNat(count);
    var s := FoundPrefix + digits + FoundSuffix;
    assert s[..|FoundPrefix|] == FoundPrefix;
    assert s[|s| - |FoundSuffix|..] == FoundSuffix;
    assert s[|FoundPrefix|..|s| - |FoundSuffix|] == digits;
    Decimal.ToNatFromNat(count);
  }

  /*** A worked example ***/

  /** Six hits whose hrefs are a, a, b, c, b, d: the first three distinct hrefs are those of hits 0, 2 and 3. */
  function ExampleHits(s: seq<int>): (hits: seq<Hit<int>>)
    requires |s| == 6
    ensures |hits| == 6 && forall n :: 0 <= n < 6 ==> hits[n].score == s[n]
  {
    [Hit(s[0], Some("/a"), None, None, None), Hit(s[1], Some("/a"), None, None, None),
     Hit(s[2], Some("/b"), None, None, None), Hit(s[3], Some("/c"), None, None, None),
     Hit(s[4], Some("/b"), None, None, None), Hit(s[5], Some("/d"), None, None, None)]
  }

  /**
   * With top_k = 3 the example gives three results, for hrefs a, b and c, in
   * hit order and carrying the scores of hits 0, 2 and 3.
   */
  lemma HappyPath(s: seq<int>)
    requires |s| == 6
    ensures var r := Aggregate(ExampleHits(s), 3);
      |r| == 3 && r[0].href == "/a" && r[1].href == "/b" && r[2].href == "/c" &&
      r[0].score == s[0] && r[1].score == s[2] && r[2].score == s[3]
  {
    var hits := ExampleHits(s);
    var seen1: set<string> := {"/a"};
    var seen2: set<string> := {"/a", "/b"};
    assert Key(hits[0]) == "/a" && Key(hits[1]) == "/a" && Key(hits[2]) == "/b" && Key(hits[3]) == "/c";
    assert {} + {"/a"} == seen1 && seen1 + {"/b"} == seen2;
    var last := KeepFrom(hits, 3, seen2, 1);
    assert last == [Format(hits[3])];
    var fromB := KeepFrom(hits, 2, seen1, 2);
    assert fromB == [Format(hits[2])] + last;
    SkipStep(hits, 1, seen1, 2);
    assert Aggregate(hits, 3) == [Format(hits[0])] + fromB;
  }

  /** The answer for three results. */
  lemma HappyPathAnswer()
    ensures Answer(3) == Some("Found 3 relevant pages")
  {
    assert Decimal.FromNat(3) == "3";
    assert FoundPrefix + "3" + FoundSuffix == "Found 3 relevant pages";
  }
}
