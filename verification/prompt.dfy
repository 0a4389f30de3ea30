/**
 * The post-processing of a rendered prompt template (`process_prompt_md` after Jinja has
 * rendered it, which is an input here): HTML comments followed by a newline are removed,
 * runs of blank lines are collapsed, and the result is stripped.
 */
module Prompt {
  import opened Wrappers
  import opened Text

  const CommentOpen: string := "<!--"
  const CommentClose: string := "-->\n"
  const Triple: string := "\n\n\n"

  // ---------------------------------------------------------------------------------------
  // re.sub(r'<!--(.*?)-->\n', '', content, flags=re.DOTALL)

  /**
   * The substitution: the leftmost "<!--" that has a "-->\n" after it starts a match, which
   * ends at the first such "-->\n" (the group is lazy); the scan goes on after the match. When
   * the leftmost "<!--" has no "-->\n" after it, no later one has, and the rest is kept.
   */
  function RemoveComments(s: string): (r: string)
    ensures |r| <= |s|
    decreases |s|
  {
    match CommentSpan(s)
    case None => s
    case Some((p, c)) => s[..p] + RemoveComments(s[c + 4..])
  }

  /** Where the first match starts and where its "-->\n" starts, if there is a match. */
  function CommentSpan(s: string): (r: Option<(nat, nat)>)
    ensures r.Some? ==> r.value.0 <= r.value.1 && r.value.1 + 4 <= |s|
  {
    match Find(s, CommentOpen, 0)
    case None => None
    case Some(p) =>
      match Find(s, CommentClose, p + 4)
      case None => None
      case Some(c) => Some((p, c))
  }

  /** Text with no "<!--" passes through unchanged. */
  lemma NoCommentUnchanged(s: string)
    requires !IsInfix(CommentOpen, s)
    ensures RemoveComments(s) == s
  {
    FindIsInfix(s, CommentOpen);
  }

  /** In `a + "<!--" + body + rest`, with no '<' in `a`, the first "<!--" is the one after `a`. */
  lemma FindOpen(a: string, body: string, rest: string)
    requires Free(a, '<')
    ensures Find(a + (CommentOpen + (body + rest)), CommentOpen, 0) == Some(|a|)
  {
    assert CommentOpen[0] == '<';
    FindAfter(a, CommentOpen, body + rest);
  }

  /** Where the comment body sits in the text. */
  lemma BodyAt(a: string, body: string, rest: string, j: nat)
    requires |a| + 4 <= j < |a| + 4 + |body|
    ensures (a + (CommentOpen + (body + rest)))[j] == body[j - |a| - 4]
  {
    var t := CommentOpen + (body + rest);
    assert (a + t)[j] == t[j - |a|];
    assert t[j - |a|] == (body + rest)[j - |a| - 4];
  }

  /** A stretch without '-' holds no start of "-->\n". */
  lemma SkipDashFree(s: string, lo: nat, hi: nat)
    requires lo <= hi <= |s|
    requires forall j :: lo <= j < hi ==> s[j] != '-'
    ensures Find(s, CommentClose, lo) == Find(s, CommentClose, hi)
  {
    FindSkip(s, CommentClose, lo, hi);
  }

  lemma BodyDashFree(a: string, body: string, rest: string)
    requires Free(body, '-')
    ensures forall j :: |a| + 4 <= j < |a| + 4 + |body| ==> (a + (CommentOpen + (body + rest)))[j] != '-'
  {
    forall j | |a| + 4 <= j < |a| + 4 + |body| ensures (a + (CommentOpen + (body + rest)))[j] != '-' {
      BodyAt(a, body, rest, j);
    }
  }

  /** With no '-' in `body`, the search for "-->\n" after the opening skips the whole body. */
  lemma SkipBody(s: string, a: string, body: string, rest: string)
    requires Free(body, '-') && s == a + (CommentOpen + (body + rest))
    ensures Find(s, CommentClose, |a| + 4) == Find(s, CommentClose, |a| + 4 + |body|)
  {
    BodyDashFree(a, body, rest);
    SkipDashFree(s, |a| + 4, |a| + 4 + |body|);
  }

  /** One match of the substitution, unfolded. */
  lemma RemoveAt(s: string, p: nat, c: nat, before: string, after: string)
    requires CommentSpan(s) == Some((p, c)) && s[..p] == before && s[c + 4..] == after
    ensures RemoveComments(s) == before + RemoveComments(after)
  {
    RemoveStep(s, p, c);
  }

  lemma RemoveStep(s: string, p: nat, c: nat)
    requires CommentSpan(s) == Some((p, c))
    ensures RemoveComments(s) == s[..p] + RemoveComments(s[c + 4..])
  {
  }

  /**
   * A comment followed by a newline is removed with its newline: in a text `s` made of a
   * prefix `a` without '<', a comment whose body has no '-', and a rest `b`, only `a` and what
   * follows the comment remain.
   */
  lemma CommentRemoved(s: string, a: string, body: string, b: string)
    requires Free(a, '<') && Free(body, '-')
    requires s == a + (CommentOpen + (body + (CommentClose + b)))
    ensures RemoveComments(s) == a + RemoveComments(b)
  {
    CommentFound(s, a, body, b);
    CommentParts(s, a, body, b);
    RemoveAt(s, |a|, |a| + 4 + |body|, a, b);
  }

  /** The match in such a text is the comment after `a`. */
  lemma CommentFound(s: string, a: string, body: string, b: string)
    requires Free(a, '<') && Free(body, '-')
    requires s == a + (CommentOpen + (body + (CommentClose + b)))
    ensures CommentSpan(s) == Some((|a| as nat, |a| + 4 + |body|))
  {
    FindOpen(a, body, CommentClose + b);
    SkipBody(s, a, body, CommentClose + b);
    var c: nat := |a| + 4 + |body|;
    CommentParts(s, a, body, b);
    FindHere(s, CommentClose, c);
  }

  /** Where the parts of a text with one comment sit. */
  lemma CommentParts(s: string, a: string, body: string, b: string)
    requires s == a + (CommentOpen + (body + (CommentClose + b)))
    ensures var c := |a| + 4 + |body|;
            c + 4 <= |s| && s[..|a|] == a && s[c..c + 4] == CommentClose && s[c + 4..] == b
  {
    var c := |a| + 4 + |body|;
    assert s[c..] == CommentClose + b;
    assert s[c..][..4] == s[c..c + 4];
    assert s[c..][4..] == s[c + 4..];
  }

  /** A comment that is not followed by a newline stays. */
  lemma CommentWithoutNewlineKept(s: string, a: string, body: string)
    requires Free(a, '<') && Free(body, '-')
    requires s == a + (CommentOpen + (body + "-->"))
    ensures RemoveComments(s) == s
  {
    FindOpen(a, body, "-->");
    SkipBody(s, a, body, "-->");
    assert Find(s, CommentClose, |a| + 4 + |body|) == None;
  }

  // ---------------------------------------------------------------------------------------
  // while '\n\n\n' in content: content = content.replace('\n\n\n', '\n\n')

  /** `s.replace('\n\n\n', '\n\n')`: non-overlapping occurrences, left to right. */
  function ReplaceTriples(s: string): (r: string)
    ensures |r| <= |s|
    ensures IsInfix(Triple, s) ==> |r| < |s|
  {
    if |s| >= 3 && s[..3] == Triple then
      var r := "\n\n" + ReplaceTriples(s[3..]);
      r
    else if s == [] then []
    else
      var r := [s[0]] + ReplaceTriples(s[1..]);
      assert IsInfix(Triple, s) ==> IsInfix(Triple, s[1..]) by {
        if IsInfix(Triple, s) {
          var i: nat :| i <= |s| && OccursAt(s, Triple, i);
          assert i != 0;
          assert s[1..][i - 1..i - 1 + 3] == s[i..i + 3];
          assert OccursAt(s[1..], Triple, i - 1);
        }
      }
      r
  }

  /**
   * The intended meaning of the collapse, as a scan: `k` newlines of the current run have
   * been kept so far (at most two); a newline beyond the second of its run is dropped.
   */
  function CollapseFrom(s: string, k: nat): string
    requires k <= 2
  {
    if s == [] then []
    else if s[0] == '\n' then
      if k == 2 then CollapseFrom(s[1..], 2) else "\n" + CollapseFrom(s[1..], k + 1)
    else [s[0]] + CollapseFrom(s[1..], 0)
  }

  /** Every run of newlines cut to at most two. */
  function Collapse(s: string): string {
    CollapseFrom(s, 0)
  }

  /** One round of replacement does not change the collapsed form. */
  lemma {:induction false} CollapseReplace(s: string, k: nat)
    requires k <= 2
    ensures CollapseFrom(ReplaceTriples(s), k) == CollapseFrom(s, k)
    decreases |s|
  {
    if |s| >= 3 && s[..3] == Triple {
      var t := s[3..];
      CollapseReplace(t, 2);
      assert s == Newlines(3) + t;
      assert ReplaceTriples(s) == Newlines(2) + ReplaceTriples(t);
      CollapseAppend(Newlines(3), t, k);
      CollapseAppend(Newlines(2), ReplaceTriples(t), k);
      CollapseRun(3, k);
      CollapseRun(2, k);
    } else if s != [] {
      var r := [s[0]] + ReplaceTriples(s[1..]);
      assert r[1..] == ReplaceTriples(s[1..]);
      if s[0] == '\n' {
        CollapseReplace(s[1..], if k == 2 then 2 else k + 1);
      } else {
        CollapseReplace(s[1..], 0);
      }
    }
  }

  /** A string that does not start with `n` newlines. */
  predicate NoLeadingRun(s: string, n: nat) {
    !(n <= |s| && forall i :: 0 <= i < n ==> s[i] == '\n')
  }

  /** A string with no triple newline, entered with `k` newlines kept, is its own collapse. */
  lemma {:induction false} CollapseFixed(s: string, k: nat)
    requires k <= 2 && !IsInfix(Triple, s) && NoLeadingRun(s, 3 - k)
    ensures CollapseFrom(s, k) == s
    decreases |s|
  {
    if s != [] {
      var t := s[1..];
      TripleInTail(s);
      if s[0] == '\n' {
        assert k < 2;
        CollapseFixed(t, k + 1);
      } else {
        TripleOrNoLeadingRun(t);
        CollapseFixed(t, 0);
      }
    }
  }

  /** A triple newline in the tail of a text is one in the text. */
  lemma TripleInTail(s: string)
    requires s != []
    ensures IsInfix(Triple, s[1..]) ==> IsInfix(Triple, s)
  {
    var t := s[1..];
    if IsInfix(Triple, t) {
      var i: nat :| i <= |t| && OccursAt(t, Triple, i);
      assert s[i + 1..i + 4] == t[i..i + 3];
      assert OccursAt(s, Triple, i + 1);
    }
  }

  /** A text that starts with three newlines contains a triple newline. */
  lemma TripleOrNoLeadingRun(s: string)
    ensures IsInfix(Triple, s) || NoLeadingRun(s, 3)
  {
    if 3 <= |s| && s[0] == '\n' && s[1] == '\n' && s[2] == '\n' {
      assert s[0..3] == Triple;
      assert OccursAt(s, Triple, 0);
    }
  }

  /**
   * `while '\n\n\n' in content: content = content.replace(...)`. The loop ends because every
   * round shortens the text, and it ends with every run of newlines cut to two.
   */
  method CollapseNewlines(s: string) returns (content: string)
    ensures content == Collapse(s)
    ensures !IsInfix(Triple, content)
  {
    content := s;
    while IsInfix(Triple, content)
      invariant Collapse(content) == Collapse(s)
      decreases |content|
    {
      CollapseReplace(content, 0);
      content := ReplaceTriples(content);
    }
    TripleOrNoLeadingRun(content);
    CollapseFixed(content, 0);
  }

  // ---------------------------------------------------------------------------------------
  // Properties of the collapse

  /** A run of `m` newlines. */
  function Newlines(m: nat): (r: string)
    ensures |r| == m && forall i :: 0 <= i < m ==> r[i] == '\n'
  {
    if m == 0 then [] else "\n" + Newlines(m - 1)
  }

  /** Where the scan stands after `s`. */
  function StateAfter(s: string, k: nat): (r: nat)
    requires k <= 2
    ensures r <= 2
  {
    if s == [] then k
    else if s[0] == '\n' then StateAfter(s[1..], if k == 2 then 2 else k + 1)
    else StateAfter(s[1..], 0)
  }

  lemma {:induction false} CollapseAppend(a: string, b: string, k: nat)
    requires k <= 2
    ensures CollapseFrom(a + b, k) == CollapseFrom(a, k) + CollapseFrom(b, StateAfter(a, k))
    decreases |a|
  {
    if a != [] {
      var ab := a + b;
      assert ab[0] == a[0] && ab[1..] == a[1..] + b;
      var k' := if a[0] == '\n' then (if k == 2 then 2 else k + 1) else 0;
      CollapseAppend(a[1..], b, k');
    } else {
      assert a + b == b;
    }
  }

  lemma {:induction false} StateAfterNonNewline(a: string, k: nat)
    requires k <= 2 && a != [] && a[|a| - 1] != '\n'
    ensures StateAfter(a, k) == 0
    decreases |a|
  {
    if |a| > 1 {
      StateAfterNonNewline(a[1..], if a[0] == '\n' then (if k == 2 then 2 else k + 1) else 0);
    }
  }

  lemma {:induction false} CollapseRun(m: nat, k: nat)
    requires k <= 2
    ensures CollapseFrom(Newlines(m), k) == Newlines(if m + k <= 2 then m else 2 - k)
    ensures StateAfter(Newlines(m), k) == (if m + k <= 2 then m + k else 2)
    decreases m
  {
    if m > 0 {
      CollapseRun(m - 1, if k == 2 then 2 else k + 1);
    }
  }

  /** The first character of `b` is not a newline, so the scan's state no longer matters. */
  lemma CollapseResets(b: string, k: nat)
    requires k <= 2 && (b == [] || b[0] != '\n')
    ensures CollapseFrom(b, k) == CollapseFrom(b, 0)
  {
  }

  /**
   * Every run of newlines becomes `min(m, 2)` newlines: a run of `m` between text `a` (empty or
   * ending in another character) and text `b` (empty or starting with another character).
   */
  lemma CollapseRunBetween(a: string, m: nat, b: string)
    requires a == [] || a[|a| - 1] != '\n'
    requires b == [] || b[0] != '\n'
    ensures Collapse(a + Newlines(m) + b) == Collapse(a) + Newlines(if m <= 2 then m else 2) + Collapse(b)
  {
    CollapseAppend(a + Newlines(m), b, 0);
    CollapseAppend(a, Newlines(m), 0);
    var k := StateAfter(a, 0);
    if a != [] {
      StateAfterNonNewline(a, 0);
    }
    assert k == 0;
    CollapseRun(m, 0);
    CollapseAppend(a, Newlines(m), 0);
    assert StateAfter(a + Newlines(m), 0) == StateAfter(Newlines(m), 0) by {
      StateAfterAppend(a, Newlines(m), 0);
    }
    CollapseResets(b, StateAfter(a + Newlines(m), 0));
  }

  lemma {:induction false} StateAfterAppend(a: string, b: string, k: nat)
    requires k <= 2
    ensures StateAfter(a + b, k) == StateAfter(b, StateAfter(a, k))
    decreases |a|
  {
    if a != [] {
      var ab := a + b;
      assert ab[0] == a[0] && ab[1..] == a[1..] + b;
      StateAfterAppend(a[1..], b, if a[0] == '\n' then (if k == 2 then 2 else k + 1) else 0);
    } else {
      assert a + b == b;
    }
  }

  /** The characters other than newlines, in order. */
  function Visible(s: string): string {
    if s == [] then [] else (if s[0] == '\n' then [] else [s[0]]) + Visible(s[1..])
  }

  /** The collapse keeps every other character, in order. */
  lemma {:induction false} CollapseKeepsText(s: string, k: nat)
    requires k <= 2
    ensures Visible(CollapseFrom(s, k)) == Visible(s)
    decreases |s|
  {
    if s != [] {
      if s[0] == '\n' {
        CollapseKeepsText(s[1..], if k == 2 then 2 else k + 1);
        if k < 2 {
          assert ("\n" + CollapseFrom(s[1..], k + 1))[1..] == CollapseFrom(s[1..], k + 1);
        }
      } else {
        CollapseKeepsText(s[1..], 0);
        assert ([s[0]] + CollapseFrom(s[1..], 0))[1..] == CollapseFrom(s[1..], 0);
      }
    }
  }

  // ---------------------------------------------------------------------------------------
  // The whole post-processing

  /** An infix of a text without triple newlines has none either. */
  lemma NoTripleInfix(s: string, i: nat, j: nat)
    requires i <= j <= |s| && !IsInfix(Triple, s)
    ensures !IsInfix(Triple, s[i..j])
  {
    forall k: nat | k <= j - i ensures !OccursAt(s[i..j], Triple, k) {
      assert !OccursAt(s, Triple, i + k);
      if k + |Triple| <= j - i {
        var u, w := s[i..j][k..k + |Triple|], s[i + k..i + k + |Triple|];
        forall t | 0 <= t < |u| ensures u[t] == w[t] {
          assert u[t] == s[i..j][k + t] == s[i + k + t];
        }
        assert u == w;
      }
    }
  }

  /** Stripping keeps a text free of triple newlines. */
  lemma StripNoTriple(s: string)
    requires !IsInfix(Triple, s)
    ensures !IsInfix(Triple, Strip(s))
  {
    var l := LStrip(s);
    NoTripleInfix(s, |s| - |l|, |s|);
    assert s[|s| - |l|..|s|] == l;
    NoTripleInfix(l, 0, |RStrip(l)|);
  }

  /**
   * The post-render part of `process_prompt_md`: comments removed, newline runs collapsed,
   * surrounding whitespace stripped.
   */
  method ProcessPrompt(rendered: string) returns (r: string)
    ensures r == Strip(Collapse(RemoveComments(rendered)))
    ensures !IsInfix(Triple, r)
    ensures r == [] || (!IsSpace(r[0]) && !IsSpace(r[|r| - 1]))
  {
    var content := RemoveComments(rendered);
    content := CollapseNewlines(content);
    r := Strip(content);
    StripNoTriple(content);
  }
}
