/**
 * The fence calculator: the run of backticks that opens and closes a fenced
 * markdown code block around arbitrary content (`make_fence`).
 */
module Fence {
  import opened Common

  const Backtick: char := '`'

  /** `n` backticks: Python's "`" * n. */
  function Backticks(n: nat): string {
    seq(n, _ => Backtick)
  }

  predicate AllBackticks(s: string) {
    forall i :: 0 <= i < |s| ==> s[i] == Backtick
  }

  /** `s` holds a run of `n` consecutive backticks starting at index `i`. */
  predicate RunAt(s: string, i: int, n: nat) {
    0 <= i && i + n <= |s| && forall k :: i <= k < i + n ==> s[k] == Backtick
  }

  /** `pat` occurs in `s` starting at index `i`. */
  predicate OccursAt(s: string, i: int, pat: string) {
    0 <= i && i + |pat| <= |s| && s[i..i + |pat|] == pat
  }

  /** The backticks at the end of `s`: the scanner's `current_run` after reading `s`. */
  function TrailingRun(s: string): (r: nat)
    ensures r <= |s|
    ensures RunAt(s, |s| - r, r)
  {
    if s == [] || s[|s| - 1] != Backtick then 0
    else TrailingRun(s[..|s| - 1]) + 1
  }

  /** The longest run seen while reading `s`: the scanner's `max_run`. */
  function LongestRun(s: string): (r: nat)
    ensures TrailingRun(s) <= r <= |s|
  {
    if s == [] then 0 else Max(LongestRun(s[..|s| - 1]), TrailingRun(s))
  }

  /** The fence the source returns: `max(3, max_run + 1)` backticks. */
  function FenceFor(content: string): (fence: string)
    ensures AllBackticks(fence)
    ensures |fence| == Max(3, LongestRun(content) + 1)
  {
    Backticks(Max(3, LongestRun(content) + 1))
  }

  /** `make_fence`: one scan over the content keeping the current and longest run. */
  method MakeFence(content: string) returns (fence: string)
    ensures fence == FenceFor(content)
  {
    var maxRun, currentRun := 0, 0;
    for i := 0 to |content|
      invariant currentRun == TrailingRun(content[..i])
      invariant maxRun == LongestRun(content[..i])
    {
      assert content[..i + 1][..i] == content[..i];
      if content[i] == Backtick {
        currentRun := currentRun + 1;
        maxRun := Max(maxRun, currentRun);
      } else {
        currentRun := 0;
      }
    }
    assert content[..|content|] == content;
    fence := Backticks(Max(3, maxRun + 1));
  }

  /** A run that ends at the end of `s` is no longer than the trailing run. */
  lemma {:induction false} TrailingRunBounds(s: string, n: nat)
    requires RunAt(s, |s| - n, n)
    ensures n <= TrailingRun(s)
  {
    if n > 0 {
      var p := s[..|s| - 1];
      assert s[|s| - 1] == Backtick;
      TrailingRunBounds(p, n - 1);
    }
  }

  /** Every run of backticks in `s` is at most `LongestRun(s)` long. */
  lemma {:induction false} RunBound(s: string, i: int, n: nat)
    requires RunAt(s, i, n)
    ensures n <= LongestRun(s)
  {
    if s != [] {
      var p := s[..|s| - 1];
      if i + n <= |p| {
        RunBound(p, i, n);
      } else {
        TrailingRunBounds(s, n);
      }
    }
  }

  /** `LongestRun(s)` is attained: some run in `s` has exactly that length. */
  lemma {:induction false} LongestRunAttained(s: string) returns (i: int)
    ensures RunAt(s, i, LongestRun(s))
  {
    if s == [] {
      i := 0;
    } else {
      var p := s[..|s| - 1];
      if LongestRun(p) >= TrailingRun(s) {
        i := LongestRunAttained(p);
      } else {
        i := |s| - TrailingRun(s);
      }
    }
  }

  /** The fence never occurs anywhere inside the content it delimits. */
  lemma FenceNotInContent(content: string)
    ensures forall i :: !OccursAt(content, i, FenceFor(content))
  {
    var f := FenceFor(content);
    forall i | OccursAt(content, i, f) ensures false {
      assert RunAt(content, i, |f|) by {
        forall k | i <= k < i + |f| ensures content[k] == Backtick {
          assert content[k] == content[i..i + |f|][k - i];
        }
      }
      RunBound(content, i, |f|);
    }
  }

  /**
   * The fence is the shortest safe one: every shorter run of at least three
   * backticks does occur in the content.
   */
  lemma FenceIsShortest(content: string, k: nat)
    requires 3 <= k < |FenceFor(content)|
    ensures exists i :: OccursAt(content, i, Backticks(k))
  {
    var i := LongestRunAttained(content);
    assert content[i..i + k] == Backticks(k);
    assert OccursAt(content, i, Backticks(k));
  }

  /** The fence has exactly three backticks iff no run of three occurs in the content. */
  lemma FenceIsThreeIff(content: string)
    ensures |FenceFor(content)| == 3 <==> forall i :: !RunAt(content, i, 3)
  {
    if |FenceFor(content)| == 3 {
      forall i | RunAt(content, i, 3) ensures false {
        RunBound(content, i, 3);
      }
    } else {
      var i := LongestRunAttained(content);
      assert RunAt(content, i, 3);
    }
  }
}
