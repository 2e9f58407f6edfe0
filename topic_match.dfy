/** Topic filter matching of the gateway's message dispatcher
    (`MQTTManager::topicMatches`).  The source walks pattern and topic with
    two indices, one `/`-separated level at a time; `Walk` states that walk
    as a recursion on the unconsumed suffixes, `MatchTopic` is the loop
    itself, and `LevelsMatch` is the level-list semantics of single-level
    `+` and terminal multi-level `#` that the walk agrees with on
    well-formed filters and topics. */
module TopicMatch {

  /** Position of the first `/` at or after `from`, or `|s|` when there is
      none (String::indexOf with its -1 replaced by the length, as the source
      does right after calling it). */
  function SepFrom(s: string, from: nat): (k: nat)
    requires from <= |s|
    ensures from <= k <= |s|
    ensures k < |s| ==> s[k] == '/'
    decreases |s| - from
  {
    if from == |s| then |s| else if s[from] == '/' then from else SepFrom(s, from + 1)
  }

  /** The suffix of `s` from index `i`; empty once `i` has run past the end
      (the source's indices may step one past the length). */
  function Rest(s: string, i: nat): (r: string)
    ensures i < |s| ==> r == s[i..]
    ensures i >= |s| ==> r == []
  {
    if i < |s| then s[i..] else []
  }

  /** The first level of `s` and what follows its separator. */
  function FirstLevel(s: string): string {
    s[..SepFrom(s, 0)]
  }

  function AfterFirstLevel(s: string): string {
    Rest(s, SepFrom(s, 0) + 1)
  }

  predicate HasWildcard(p: string) {
    '+' in p || '#' in p
  }

  /** A `#` standing at the start of the remaining pattern and ending its
      level: "last character, or followed by `/`". */
  predicate HashLevelAtStart(p: string) {
    p != [] && p[0] == '#' && (|p| == 1 || p[1] == '/')
  }

  /** The source's level-by-level walk over the remaining pattern `p` and
      remaining topic `t`. */
  function Walk(p: string, t: string): bool
    decreases |p|
  {
    if p == [] || t == [] then p == [] && t == []
    else if HashLevelAtStart(p) then true
    else if FirstLevel(p) != "+" && FirstLevel(p) != FirstLevel(t) then false
    else Walk(AfterFirstLevel(p), AfterFirstLevel(t))
  }

  /** topicMatches: the exact-equality fast path, then "no wildcard means no
      match", then the walk. */
  function TopicMatches(pattern: string, topic: string): (r: bool)
    ensures pattern == topic ==> r
    ensures !HasWildcard(pattern) ==> (r <==> pattern == topic)
  {
    if pattern == topic then true
    else if !HasWildcard(pattern) then false
    else Walk(pattern, topic)
  }

  // ---------------------------------------------------------------------
  // The loop
  // ---------------------------------------------------------------------

  lemma {:induction false} SepFromShift(s: string, i: nat, j: nat)
    requires i + j <= |s|
    ensures SepFrom(s[i..], j) == SepFrom(s, i + j) - i
    decreases |s| - (i + j)
  {
    if i + j < |s| && s[i + j] != '/' {
      SepFromShift(s, i, j + 1);
    }
  }

  /** The first level of the suffix from `i`, in indices into the whole
      string. */
  lemma SuffixFirstLevel(s: string, i: nat, k: nat)
    requires i < |s| && k == SepFrom(s, i)
    ensures FirstLevel(s[i..]) == s[i..k]
  {
    SepFromShift(s, i, 0);
    var u := s[i..];
    assert SepFrom(u, 0) == k - i;
    assert u[..k - i] == s[i..k];
  }

  /** What follows the first level of the suffix from `i`. */
  lemma SuffixAfterFirstLevel(s: string, i: nat, k: nat)
    requires i < |s| && k == SepFrom(s, i)
    ensures AfterFirstLevel(s[i..]) == Rest(s, k + 1)
  {
    SepFromShift(s, i, 0);
    assert AfterFirstLevel(s[i..]) == Rest(s[i..], k - i + 1);
    RestShift(s, i, k - i + 1);
    assert i + (k - i + 1) == k + 1;
  }

  /** A suffix of a suffix is a suffix. */
  lemma RestShift(s: string, i: nat, j: nat)
    requires i <= |s|
    ensures Rest(s[i..], j) == Rest(s, i + j)
  {
    if i + j < |s| {
      assert s[i..][j..] == s[i + j..];
    }
  }

  /** One turn of the loop at `pi`, `ti` is one step of `Walk`. */
  lemma LoopStep(p: string, t: string, pi: nat, ti: nat, ps: nat, ts: nat)
    requires pi < |p| && ti < |t| && ps == SepFrom(p, pi) && ts == SepFrom(t, ti)
    requires !(p[pi] == '#' && (pi == |p| - 1 || p[pi + 1] == '/'))
    ensures Walk(Rest(p, pi), Rest(t, ti)) ==
      if p[pi..ps] != "+" && p[pi..ps] != t[ti..ts] then false
      else Walk(Rest(p, ps + 1), Rest(t, ts + 1))
  {
    assert Rest(p, pi) == p[pi..] && Rest(t, ti) == t[ti..];
    assert !HashLevelAtStart(p[pi..]);
    SuffixFirstLevel(p, pi, ps);
    SuffixFirstLevel(t, ti, ts);
    SuffixAfterFirstLevel(p, pi, ps);
    SuffixAfterFirstLevel(t, ti, ts);
  }

  /** The walk over what the loop has not consumed yet, at indices `pi` and
      `ti`.  The countdown `k` computes nothing: it is there only so that
      the loop's proofs do not unfold `Walk` (the loop uses `k == 2`);
      `RemainingIs` opens it. */
  function Remaining(p: string, t: string, pi: nat, ti: nat, k: nat): bool {
    if k == 0 then Walk(Rest(p, pi), Rest(t, ti)) else Remaining(p, t, pi, ti, k - 1)
  }

  lemma RemainingIs(p: string, t: string, pi: nat, ti: nat)
    ensures Remaining(p, t, pi, ti, 2) == Walk(Rest(p, pi), Rest(t, ti))
  {
    assert Remaining(p, t, pi, ti, 2) == Remaining(p, t, pi, ti, 1) == Remaining(p, t, pi, ti, 0);
  }

  /** A level that is neither `+` nor the topic's ends the loop without a
      match. */
  lemma LoopMismatch(p: string, t: string, pi: nat, ti: nat, ps: nat, ts: nat)
    requires pi < |p| && ti < |t| && ps == SepFrom(p, pi) && ts == SepFrom(t, ti)
    requires !(p[pi] == '#' && (pi == |p| - 1 || p[pi + 1] == '/'))
    requires p[pi..ps] != "+" && p[pi..ps] != t[ti..ts]
    ensures !Remaining(p, t, pi, ti, 2)
  {
    RemainingIs(p, t, pi, ti);
    LoopStep(p, t, pi, ti, ps, ts);
  }

  /** Otherwise the loop goes on after both separators. */
  lemma LoopNext(p: string, t: string, pi: nat, ti: nat, ps: nat, ts: nat)
    requires pi < |p| && ti < |t| && ps == SepFrom(p, pi) && ts == SepFrom(t, ti)
    requires !(p[pi] == '#' && (pi == |p| - 1 || p[pi + 1] == '/'))
    requires p[pi..ps] == "+" || p[pi..ps] == t[ti..ts]
    ensures Remaining(p, t, pi, ti, 2) == Remaining(p, t, ps + 1, ts + 1, 2)
  {
    RemainingIs(p, t, pi, ti);
    RemainingIs(p, t, ps + 1, ts + 1);
    LoopStep(p, t, pi, ti, ps, ts);
  }

  /** A `#` level at `pi` ends the loop with a match. */
  lemma LoopHash(p: string, t: string, pi: nat, ti: nat)
    requires pi < |p| && ti < |t|
    requires p[pi] == '#' && (pi == |p| - 1 || p[pi + 1] == '/')
    ensures Remaining(p, t, pi, ti, 2)
  {
    RemainingIs(p, t, pi, ti);
    assert Rest(p, pi) == p[pi..] && Rest(t, ti) == t[ti..];
    assert HashLevelAtStart(p[pi..]);
  }

  /** Once either string is used up, they match iff both are. */
  lemma LoopEnd(p: string, t: string, pi: nat, ti: nat)
    requires pi >= |p| || ti >= |t|
    ensures Remaining(p, t, pi, ti, 2) == (pi >= |p| && ti >= |t|)
  {
    RemainingIs(p, t, pi, ti);
  }

  /** The source's while loop, with `indexOf` as `SepFrom`. */
  method MatchTopic(pattern: string, topic: string) returns (r: bool)
    ensures r == TopicMatches(pattern, topic)
  {
    if pattern == topic {
      return true;
    }
    if !('+' in pattern) && !('#' in pattern) {
      return false;
    }
    var pi: nat, ti: nat := 0, 0;
    RemainingIs(pattern, topic, 0, 0);
    assert Rest(pattern, 0) == pattern && Rest(topic, 0) == topic;
    assert HasWildcard(pattern);
    ghost var goal := TopicMatches(pattern, topic);
    assert Remaining(pattern, topic, 0, 0, 2) == goal;
    while pi < |pattern| && ti < |topic|
      invariant Remaining(pattern, topic, pi, ti, 2) == goal
      decreases |pattern| - pi
    {
      if pattern[pi] == '#' && (pi == |pattern| - 1 || pattern[pi + 1] == '/') {
        LoopHash(pattern, topic, pi, ti);
        return true;
      }
      var ps := SepFrom(pattern, pi);
      var ts := SepFrom(topic, ti);
      if pattern[pi..ps] != "+" && pattern[pi..ps] != topic[ti..ts] {
        LoopMismatch(pattern, topic, pi, ti, ps, ts);
        return false;
      }
      LoopNext(pattern, topic, pi, ti, ps, ts);
      pi, ti := ps + 1, ts + 1;
    }
    LoopEnd(pattern, topic, pi, ti);
    return pi >= |pattern| && ti >= |topic|;
  }

  // ---------------------------------------------------------------------
  // Level semantics
  // ---------------------------------------------------------------------

  /** The `/`-separated levels of a string; never empty ("" has one empty
      level, "a/" has the levels "a" and ""). */
  function Split(s: string): (levels: seq<string>)
    ensures |levels| >= 1
    ensures levels[0] == FirstLevel(s)
    decreases |s|
  {
    var k := SepFrom(s, 0);
    if k == |s| then [s] else [s[..k]] + Split(s[k + 1..])
  }

  /** Joining the levels with `/` gives the string back. */
  function Join(levels: seq<string>): string
    requires |levels| >= 1
  {
    if |levels| == 1 then levels[0] else levels[0] + "/" + Join(levels[1..])
  }

  lemma {:induction false} JoinSplit(s: string)
    ensures Join(Split(s)) == s
    decreases |s|
  {
    var k := SepFrom(s, 0);
    if k < |s| {
      var tail := s[k + 1..];
      JoinSplit(tail);
      var levels := Split(s);
      assert levels == [s[..k]] + Split(tail);
      assert levels[1..] == Split(tail);
      assert Join(levels) == s[..k] + "/" + Join(Split(tail));
      assert s == s[..k] + "/" + tail;
    }
  }

  lemma SplitInjective(a: string, b: string)
    requires Split(a) == Split(b)
    ensures a == b
  {
    JoinSplit(a);
    JoinSplit(b);
  }

  /** No level of a topic is empty: the topic is not empty and has no
      leading, trailing or doubled `/`. */
  predicate WellFormedTopic(t: string) {
    forall i :: 0 <= i < |Split(t)| ==> Split(t)[i] != ""
  }

  /** A filter without empty levels in which a `#` level can only be the
      last one. */
  predicate WellFormedFilter(p: string) {
    && WellFormedTopic(p)
    && forall i :: 0 <= i < |Split(p)| - 1 ==> Split(p)[i] != "#"
  }

  /** The level semantics: `+` matches exactly one level of any content, a
      final `#` matches the one or more levels that remain, every other level
      must equal its topic level, and both level lists must run out
      together. */
  function LevelsMatch(ps: seq<string>, ts: seq<string>): bool
    decreases |ps|
  {
    if ps == [] then ts == []
    else if ps[0] == "#" then |ps| == 1 && ts != []
    else ts != [] && (ps[0] == "+" || ps[0] == ts[0]) && LevelsMatch(ps[1..], ts[1..])
  }

  /** What follows the first level, as levels. */
  lemma SplitAfterFirst(s: string)
    ensures SepFrom(s, 0) == |s| ==> AfterFirstLevel(s) == [] && Split(s) == [s]
    ensures SepFrom(s, 0) < |s| ==> Split(s) == [FirstLevel(s)] + Split(AfterFirstLevel(s))
  {
    var k := SepFrom(s, 0);
    if k + 1 == |s| {
      assert s[k + 1..] == [];
    }
  }

  /** On a well-formed filter and topic the source's walk is exactly the
      level semantics. */
  lemma {:induction false} WalkIsLevelsMatch(p: string, t: string)
    requires WellFormedFilter(p) && WellFormedTopic(t)
    ensures Walk(p, t) == LevelsMatch(Split(p), Split(t))
    decreases |p|
  {
    var ps, ts := Split(p), Split(t);
    assert ps[0] != "" && ts[0] != "";
    assert p != [] && t != [];
    SplitAfterFirst(p);
    SplitAfterFirst(t);
    var pk, tk := SepFrom(p, 0), SepFrom(t, 0);
    if HashLevelAtStart(p) {
      HashLevelIsHash(p);
    } else if FirstLevel(p) != "+" && FirstLevel(p) != FirstLevel(t) {
    } else {
      var pr, tr := AfterFirstLevel(p), AfterFirstLevel(t);
      FirstLevelChars(p);
      if pk == |p| && tk == |t| {
      } else if pk == |p| {
        assert ts[1..] == Split(tr);
        assert tr != [] by { assert Split(tr)[0] == ts[1]; }
      } else if tk == |t| {
        assert ps[1..] == Split(pr);
        assert pr != [] by { assert Split(pr)[0] == ps[1]; }
        assert Split(pr)[0] != "#" || |ps[1..]| == 1;
      } else {
        assert ps[1..] == Split(pr) && ts[1..] == Split(tr);
        assert pr != [] by { assert Split(pr)[0] == ps[1]; }
        assert tr != [] by { assert Split(tr)[0] == ts[1]; }
        assert WellFormedFilter(pr) by {
          forall i | 0 <= i < |Split(pr)| ensures Split(pr)[i] != "" { assert Split(pr)[i] == ps[i + 1]; }
          forall i | 0 <= i < |Split(pr)| - 1 ensures Split(pr)[i] != "#" { assert Split(pr)[i] == ps[i + 1]; }
        }
        assert WellFormedTopic(tr) by {
          forall i | 0 <= i < |Split(tr)| ensures Split(tr)[i] != "" { assert Split(tr)[i] == ts[i + 1]; }
        }
        WalkIsLevelsMatch(pr, tr);
      }
    }
  }

  /** The main statement: on a well-formed filter and topic, topicMatches is
      the level semantics. */
  lemma TopicMatchesIsLevelsMatch(p: string, t: string)
    requires WellFormedFilter(p) && WellFormedTopic(t)
    ensures TopicMatches(p, t) == LevelsMatch(Split(p), Split(t))
  {
    WalkIsLevelsMatch(p, t);
    if p != t && !HasWildcard(p) {
      LiteralLevels(p);
      LiteralLevelsMatch(Split(p), Split(t));
      if Split(p) == Split(t) { SplitInjective(p, t); }
    }
  }

  /** A first level that is exactly `#` or `+` starts with that character,
      and a first level `#` is a `#` level at the start. */
  lemma FirstLevelChars(s: string)
    ensures FirstLevel(s) == "+" ==> s != [] && s[0] == '+'
    ensures FirstLevel(s) == "#" ==> s != [] && s[0] == '#' && HashLevelAtStart(s)
  {
    var k := SepFrom(s, 0);
    assert FirstLevel(s) == s[..k];
    if k == 1 {
      assert s[..k][0] == s[0];
    }
  }

  lemma HashLevelIsHash(s: string)
    requires HashLevelAtStart(s)
    ensures FirstLevel(s) == "#"
  {
    assert SepFrom(s, 0) == 1;
    assert s[..1] == [s[0]];
  }

  /** A filter without `+` and `#` has no wildcard level. */
  lemma {:induction false} LiteralLevels(p: string)
    requires !HasWildcard(p)
    ensures forall i :: 0 <= i < |Split(p)| ==> Split(p)[i] != "+" && Split(p)[i] != "#"
    decreases |p|
  {
    var k := SepFrom(p, 0);
    FirstLevelChars(p);
    if k < |p| {
      LiteralLevels(p[k + 1..]);
    }
  }

  lemma {:induction false} LiteralLevelsMatch(ps: seq<string>, ts: seq<string>)
    requires forall i :: 0 <= i < |ps| ==> ps[i] != "+" && ps[i] != "#"
    ensures LevelsMatch(ps, ts) <==> ps == ts
    decreases |ps|
  {
    if ps != [] && ts != [] {
      LiteralLevelsMatch(ps[1..], ts[1..]);
      if ps[0] == ts[0] && ps[1..] == ts[1..] {
        assert ps == [ps[0]] + ps[1..] && ts == [ts[0]] + ts[1..];
      }
    }
  }

  // ---------------------------------------------------------------------
  // Direct consequences for arbitrary strings
  // ---------------------------------------------------------------------

  /** A `#` level after any prefix matches that prefix followed by any
      non-empty remainder. */
  lemma {:induction false} HashAbsorbsRemainder(q: string, r: string)
    requires r != []
    ensures TopicMatches(q + "/#", q + "/" + r)
    decreases |q|
  {
    var p, t := q + "/#", q + "/" + r;
    assert '#' in p by { assert p[|p| - 1] == '#'; }
    if p != t {
      HashWalk(q, r);
    }
  }

  lemma {:induction false} HashWalk(q: string, r: string)
    requires r != []
    ensures Walk(q + "/#", q + "/" + r)
    decreases |q|
  {
    var p, t := q + "/#", q + "/" + r;
    assert t == q + ("/" + r);
    if HashLevelAtStart(p) {
    } else {
      var k := SepFrom(q, 0);
      SepFromPrefix(q, "/#", 0);
      SepFromPrefix(q, "/" + r, 0);
      assert p[..k] == q[..k] && t[..k] == q[..k];
      assert FirstLevel(p) == q[..k] == FirstLevel(t);
      if k == |q| {
        assert AfterFirstLevel(p) == "#";
        assert AfterFirstLevel(t) == r;
      } else {
        assert AfterFirstLevel(p) == q[k + 1..] + "/#";
        assert AfterFirstLevel(t) == q[k + 1..] + "/" + r;
        HashWalk(q[k + 1..], r);
      }
    }
  }

  /** A separator found inside `q` is found at the same place in `q + x`; if
      `q` has none, the first one of `q + x` is `x`'s. */
  lemma {:induction false} SepFromPrefix(q: string, x: string, from: nat)
    requires from <= |q|
    requires x != [] && x[0] == '/'
    ensures SepFrom(q + x, from) == SepFrom(q, from)
    decreases |q| - from
  {
    if from < |q| && q[from] != '/' {
      SepFromPrefix(q, x, from + 1);
    }
  }

  /** `+` in the first level accepts any first topic level, the empty one
      included. */
  lemma PlusAcceptsAnyLevel(pRest: string, level: string, tRest: string)
    requires '/' !in level
    ensures Walk("+/" + pRest, level + "/" + tRest) == Walk(pRest, tRest)
  {
    var p, t := "+/" + pRest, level + "/" + tRest;
    assert p == "+" + ("/" + pRest);
    assert t == level + ("/" + tRest);
    SepFromPrefix("+", "/" + pRest, 0);
    SepFromPrefix(level, "/" + tRest, 0);
    NoSepIsLength(level);
    assert SepFrom("+", 0) == 1;
    assert p[..1] == "+";
    assert Rest(p, 2) == pRest;
    assert Rest(t, |level| + 1) == tRest;
  }

  /** A literal first level (no wildcard character at its start) must equal
      the topic's first level. */
  lemma LiteralLevelMustEqual(lit: string, pRest: string, level: string, tRest: string)
    requires '/' !in lit && '/' !in level
    requires lit != "+" && lit != [] && lit[0] != '#'
    ensures Walk(lit + "/" + pRest, level + "/" + tRest) == (lit == level && Walk(pRest, tRest))
  {
    var p, t := lit + "/" + pRest, level + "/" + tRest;
    assert p == lit + ("/" + pRest);
    assert t == level + ("/" + tRest);
    SepFromPrefix(lit, "/" + pRest, 0);
    SepFromPrefix(level, "/" + tRest, 0);
    NoSepIsLength(lit);
    NoSepIsLength(level);
    assert FirstLevel(p) == lit && FirstLevel(t) == level;
    assert Rest(p, |lit| + 1) == pRest;
    assert Rest(t, |level| + 1) == tRest;
    assert !HashLevelAtStart(p);
  }

  lemma {:induction false} NoSepIsLength(s: string)
    requires '/' !in s
    ensures SepFrom(s, 0) == |s|
  {
  }

  // ---------------------------------------------------------------------
  // Where the walk departs from counting levels (ill-formed inputs)
  // ---------------------------------------------------------------------

  /** "+" accepts a topic with a trailing `/`, i.e. two levels. */
  lemma PlusAcceptsTrailingSlash()
    ensures TopicMatches("+", "a/")
    ensures |Split("+")| == 1 && |Split("a/")| == 2
  {
    assert SepFrom("a/", 0) == 1;
    assert Walk("", "") ;
  }

  /** "a/+" does not accept "a/", although both have two levels. */
  lemma PlusRejectsEmptyLastLevel()
    ensures !TopicMatches("a/+", "a/")
    ensures |Split("a/+")| == 2 && |Split("a/")| == 2
  {
    assert SepFrom("a/+", 0) == 1 && SepFrom("a/", 0) == 1;
    assert SepFrom("+", 0) == 1;
  }

  /** A final `#` needs at least one remaining level: "a/#" does not accept
      "a", and "#" does not accept the empty topic. */
  lemma HashNeedsARemainingLevel()
    ensures !TopicMatches("a/#", "a")
    ensures !TopicMatches("#", "")
  {
    assert SepFrom("a/#", 0) == 1 && SepFrom("a", 0) == 1;
  }
}
