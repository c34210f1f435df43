/**
 * A `sed` script made of substitutions `s%P.*%Pv%` whose pattern `P` is
 * literal text: each one replaces the text from the first occurrence of
 * `P` in the line to the end of the line with `P` followed by `v`. The
 * commands run in order, each on the previous one's result.
 */
module Sed {
  import opened Wrappers
  import opened Text

  /** One substitution: the literal text searched for, and the value put after it. */
  datatype Command = Command(pattern: string, value: string)

  /**
   * One substitution on one line: a line without the pattern is kept, and
   * otherwise everything from the leftmost occurrence of the pattern on is
   * replaced by the pattern and the value.
   */
  function Substitute(line: string, c: Command): (r: string)
    ensures !Contains(line, c.pattern) ==> r == line
  {
    match Find(c.pattern, line)
    case None => line
    case Some(i) => line[..i] + c.pattern + c.value
  }

  /** At the leftmost occurrence of its pattern, a substitution keeps what precedes it. */
  lemma SubstituteLeftmost(line: string, c: Command, i: nat)
    requires OccursAt(c.pattern, line, i)
    requires forall j: nat :: j < i ==> !OccursAt(c.pattern, line, j)
    ensures Substitute(line, c) == line[..i] + c.pattern + c.value
  {
  }

  /** The whole script on one line: each command works on the previous one's result. */
  function Apply(line: string, cs: seq<Command>): string
    decreases |cs|
  {
    if cs == [] then line else Apply(Substitute(line, cs[0]), cs[1..])
  }

  /** `sed` runs the script on every line of the file. */
  function RewriteLines(lines: seq<string>, cs: seq<Command>): (out: seq<string>)
    ensures |out| == |lines|
    ensures forall n :: 0 <= n < |lines| ==> out[n] == Apply(lines[n], cs)
  {
    seq(|lines|, n requires 0 <= n < |lines| => Apply(lines[n], cs))
  }

  /**
   * Characters a command cannot carry in its value: `%` ends the command,
   * `&` stands for the matched text, `\` starts an escape and a newline
   * ends the command line.
   */
  predicate SedSafe(cs: seq<Command>)
  {
    forall n, t :: 0 <= n < |cs| && 0 <= t < |cs[n].value| ==>
      cs[n].value[t] != '%' && cs[n].value[t] != '&' && cs[n].value[t] != '\\' && cs[n].value[t] != '\n'
  }

  /** The `sed -i` run itself: for each line, each command in turn. */
  method RunSed(lines: seq<string>, cs: seq<Command>) returns (out: seq<string>)
    requires SedSafe(cs)
    ensures out == RewriteLines(lines, cs)
  {
    out := [];
    var n := 0;
    while n < |lines|
      invariant 0 <= n <= |lines|
      invariant |out| == n
      invariant forall m :: 0 <= m < n ==> out[m] == Apply(lines[m], cs)
    {
      var cur := RunLine(lines[n], cs);
      out := out + [cur];
      n := n + 1;
    }
  }

  /** The script on one line, one command after another. */
  method RunLine(line: string, cs: seq<Command>) returns (cur: string)
    ensures cur == Apply(line, cs)
  {
    cur := line;
    var j := 0;
    while j < |cs|
      invariant 0 <= j <= |cs|
      invariant Apply(cur, cs[j..]) == Apply(line, cs)
    {
      assert cs[j..][1..] == cs[j + 1..];
      cur := Substitute(cur, cs[j]);
      j := j + 1;
    }
    assert cs[j..] == [];
  }

  /** An assignment pattern: a non-empty text whose only `=` is its last character. */
  predicate IsPattern(p: string)
  {
    |p| > 0 && p[|p| - 1] == '=' && '=' !in p[..|p| - 1]
  }

  /**
   * A script whose patterns cannot get in each other's way: every pattern
   * is an assignment pattern, no pattern ends with another command's
   * pattern (so no two are equal), and no value holds any of the patterns.
   */
  predicate Separated(cs: seq<Command>)
  {
    && (forall n :: 0 <= n < |cs| ==> IsPattern(cs[n].pattern))
    && (forall a, b :: 0 <= a < |cs| && 0 <= b < |cs| && a != b ==> !EndsWith(cs[a].pattern, cs[b].pattern))
    && (forall n, m :: 0 <= n < |cs| && 0 <= m < |cs| ==> !Contains(cs[n].value, cs[m].pattern))
  }

  /** The commands after the first of a separated script are separated. */
  lemma SeparatedTail(cs: seq<Command>)
    requires Separated(cs) && |cs| > 0
    ensures Separated(cs[1..])
  {
    assert forall n :: 0 <= n < |cs[1..]| ==> cs[1..][n] == cs[n + 1];
  }

  /** Inside an occurrence of an assignment pattern, `=` appears only at its end. */
  lemma EqualsAtEnd(p: string, s: string, x: nat, t: int)
    requires IsPattern(p) && OccursAt(p, s, x)
    ensures x <= t < x + |p| - 1 ==> s[t] != '='
  {
    if x <= t < x + |p| - 1 {
      assert s[t] == s[x..x + |p|][t - x] == p[..|p| - 1][t - x];
    }
  }

  /** Two overlapping pattern occurrences end at the same `=`, so the later one is a suffix. */
  lemma Overlap(p: string, q: string, s: string, x: nat, y: nat)
    requires IsPattern(p) && IsPattern(q)
    requires OccursAt(p, s, x) && OccursAt(q, s, y) && x <= y < x + |p|
    ensures y + |q| == x + |p| && EndsWith(p, q)
  {
    var e, f := x + |p| - 1, y + |q| - 1;
    assert s[e] == '=' by { assert s[x..x + |p|][|p| - 1] == s[e]; }
    assert s[f] == '=' by { assert s[y..y + |q|][|q| - 1] == s[f]; }
    EqualsAtEnd(q, s, y, e);
    EqualsAtEnd(p, s, x, f);
    assert e == f;
    assert p[|p| - |q|..] == s[y..y + |q|];
  }

  /** In a separated script, occurrences of two patterns overlap only when they are one occurrence of one pattern. */
  lemma PatternOverlap(cs: seq<Command>, a: nat, b: nat, s: string, x: nat, y: nat)
    requires Separated(cs) && a < |cs| && b < |cs|
    requires OccursAt(cs[a].pattern, s, x) && OccursAt(cs[b].pattern, s, y) && x <= y < x + |cs[a].pattern|
    ensures a == b && x == y
  {
    Overlap(cs[a].pattern, cs[b].pattern, s, x, y);
    if a != b {
      assert false;
    }
  }

  /** An occurrence in a prefix is an occurrence in the whole text. */
  lemma OccursInPrefix(p: string, s: string, t: string, x: nat, w: nat)
    requires w <= |s| && w <= |t| && s[..w] == t[..w]
    requires OccursAt(p, s, x) && x + |p| <= w
    ensures OccursAt(p, t, x)
  {
    assert s[x..x + |p|] == s[..w][x..x + |p|] == t[..w][x..x + |p|] == t[x..x + |p|];
  }

  /**
   * The leftmost position in `line` where the pattern of one of the
   * commands occurs, with the index of that command.
   */
  function FirstMatch(line: string, cs: seq<Command>): (m: Option<(nat, nat)>)
    ensures m.None? <==> forall j :: 0 <= j < |cs| ==> !Contains(line, cs[j].pattern)
    ensures m.Some? ==> m.value.1 < |cs| && OccursAt(cs[m.value.1].pattern, line, m.value.0)
    ensures m.Some? ==> forall j, x: nat :: 0 <= j < |cs| && OccursAt(cs[j].pattern, line, x) ==> m.value.0 <= x
    decreases |cs|
  {
    if cs == [] then None
    else
      var later := FirstMatch(line, cs[1..]);
      assert forall j :: 0 <= j < |cs[1..]| ==> cs[1..][j] == cs[j + 1];
      match Find(cs[0].pattern, line)
      case None =>
        (match later
         case None => None
         case Some((y, j)) => Some((y, j + 1)))
      case Some(x) =>
        (match later
         case None => Some((x, 0))
         case Some((y, j)) => if y < x then Some((y, j + 1)) else Some((x, 0)))
  }

  /** A line in which no pattern occurs goes through the script unchanged. */
  lemma {:induction false} Unmatched(line: string, cs: seq<Command>)
    requires forall j :: 0 <= j < |cs| ==> !Contains(line, cs[j].pattern)
    ensures Apply(line, cs) == line
    decreases |cs|
  {
    if cs != [] {
      assert !Contains(line, cs[0].pattern);
      assert Substitute(line, cs[0]) == line;
      assert forall j :: 0 <= j < |cs[1..]| ==> cs[1..][j] == cs[j + 1];
      Unmatched(line, cs[1..]);
    }
  }

  /**
   * After command `k` has rewritten the line at an occurrence of its
   * pattern, another command's pattern occurs in the result only if it
   * occurred in the kept prefix.
   */
  lemma NothingAfter(pre: string, cs: seq<Command>, k: nat, q: nat)
    requires Separated(cs) && k < |cs| && q < |cs| && q != k
    requires !Contains(pre, cs[q].pattern)
    ensures !Contains(pre + cs[k].pattern + cs[k].value, cs[q].pattern)
  {
    var p, v, r := cs[k].pattern, cs[k].value, cs[q].pattern;
    var s := pre + p + v;
    assert OccursAt(p, s, |pre|) by { assert s[|pre|..|pre| + |p|] == p; }
    forall y: nat | y <= |s|
      ensures !OccursAt(r, s, y)
    {
      if y + |r| <= |pre| {
        assert s[y..y + |r|] == pre[y..y + |r|];
        assert !OccursAt(r, pre, y);
      } else if y <= |pre| {
        if OccursAt(r, s, y) {
          PatternOverlap(cs, q, k, s, y, |pre|);
        }
      } else if y < |pre| + |p| {
        if OccursAt(r, s, y) {
          PatternOverlap(cs, k, q, s, |pre|, y);
        }
      } else if y + |r| <= |s| {
        var z := y - |pre| - |p|;
        assert s[y..y + |r|] == v[z..z + |r|];
        assert !OccursAt(r, v, z);
      }
    }
  }

  /**
   * The first command, when its pattern occurs first in `line` (at `i`)
   * and `cur` agrees with `line` up to the end of that occurrence,
   * rewrites `cur` from `i` on.
   */
  lemma FirstApplies(line: string, cur: string, i: nat, cs: seq<Command>)
    requires Separated(cs) && |cs| > 0
    requires OccursAt(cs[0].pattern, line, i)
    requires i + |cs[0].pattern| <= |cur|
    requires cur[..i + |cs[0].pattern|] == line[..i + |cs[0].pattern|]
    requires forall x: nat :: x < i ==> !OccursAt(cs[0].pattern, line, x)
    ensures Substitute(cur, cs[0]) == line[..i] + cs[0].pattern + cs[0].value
  {
    var p := cs[0].pattern;
    var w := i + |p|;
    assert OccursAt(p, cur, i) by {
      assert cur[i..w] == cur[..w][i..w] == line[..w][i..w] == line[i..w];
    }
    forall x: nat | x < i
      ensures !OccursAt(p, cur, x)
    {
      if OccursAt(p, cur, x) {
        if x + |p| <= i {
          OccursInPrefix(p, cur, line, x, w);
        } else {
          PatternOverlap(cs, 0, 0, cur, x, i);
        }
      }
    }
    assert cur[..i] == line[..i];
  }

  /**
   * Once the first command has rewritten the line at the leftmost pattern
   * occurrence, none of the later commands' patterns occurs in it.
   */
  lemma RestUnmatched(line: string, i: nat, cs: seq<Command>)
    requires Separated(cs) && |cs| > 0 && i <= |line|
    requires forall j, x: nat :: 0 <= j < |cs| && x < i ==> !OccursAt(cs[j].pattern, line, x)
    ensures forall j :: 0 <= j < |cs[1..]| ==> !Contains(line[..i] + cs[0].pattern + cs[0].value, cs[1..][j].pattern)
  {
    var tail := cs[1..];
    forall j | 0 <= j < |tail|
      ensures !Contains(line[..i] + cs[0].pattern + cs[0].value, tail[j].pattern)
    {
      assert tail[j] == cs[j + 1];
      var q := cs[j + 1].pattern;
      forall x: nat | x <= i
        ensures !OccursAt(q, line[..i], x)
      {
        if OccursAt(q, line[..i], x) {
          OccursInPrefix(q, line[..i], line, x, i);
        }
      }
      NothingAfter(line[..i], cs, 0, j + 1);
    }
  }

  /**
   * The command whose pattern occurs first in `line` (at `i`) is the
   * first one: it rewrites the line from `i` on, and the commands after it
   * find nothing.
   */
  lemma Reached(line: string, cur: string, i: nat, cs: seq<Command>)
    requires Separated(cs) && |cs| > 0
    requires OccursAt(cs[0].pattern, line, i)
    requires i + |cs[0].pattern| <= |cur|
    requires cur[..i + |cs[0].pattern|] == line[..i + |cs[0].pattern|]
    requires forall j, x: nat :: 0 <= j < |cs| && x < i ==> !OccursAt(cs[j].pattern, line, x)
    ensures Apply(cur, cs) == line[..i] + cs[0].pattern + cs[0].value
  {
    FirstApplies(line, cur, i, cs);
    RestUnmatched(line, i, cs);
    Unmatched(line[..i] + cs[0].pattern + cs[0].value, cs[1..]);
  }

  /**
   * A command other than `k`, run before it while the pattern of `k`
   * occurs first (at `i`), leaves the text up to the end of that
   * occurrence as it was.
   */
  lemma Passed(line: string, cur: string, i: nat, cs: seq<Command>, k: nat, h: nat)
    requires Separated(cs) && k < |cs| && h < |cs| && h != k
    requires OccursAt(cs[k].pattern, line, i)
    requires i + |cs[k].pattern| <= |cur|
    requires cur[..i + |cs[k].pattern|] == line[..i + |cs[k].pattern|]
    requires forall x: nat :: x < i ==> !OccursAt(cs[h].pattern, line, x)
    ensures i + |cs[k].pattern| <= |Substitute(cur, cs[h])|
    ensures Substitute(cur, cs[h])[..i + |cs[k].pattern|] == line[..i + |cs[k].pattern|]
  {
    var p := cs[k].pattern;
    var w := i + |p|;
    var q := cs[h].pattern;
    assert OccursAt(p, cur, i) by {
      assert cur[i..w] == cur[..w][i..w] == line[..w][i..w] == line[i..w];
    }
    match Find(q, cur) {
      case None =>
      case Some(y) =>
        if y < i {
          if y + |q| <= i {
            OccursInPrefix(q, cur, line, y, w);
          } else {
            PatternOverlap(cs, h, k, cur, y, i);
          }
          assert false;
        } else if y < w {
          PatternOverlap(cs, k, h, cur, i, y);
          assert false;
        }
        assert Substitute(cur, cs[h])[..w] == cur[..w];
    }
  }

  /**
   * The script run from some command on, while the command whose pattern
   * occurs first (at `i`) is still to come.
   */
  lemma {:induction false} Pending(line: string, cur: string, i: nat, k: nat, cs: seq<Command>)
    requires Separated(cs) && k < |cs|
    requires OccursAt(cs[k].pattern, line, i)
    requires i + |cs[k].pattern| <= |cur|
    requires cur[..i + |cs[k].pattern|] == line[..i + |cs[k].pattern|]
    requires forall j, x: nat :: 0 <= j < |cs| && x < i ==> !OccursAt(cs[j].pattern, line, x)
    ensures Apply(cur, cs) == line[..i] + cs[k].pattern + cs[k].value
    decreases |cs|
  {
    if k == 0 {
      Reached(line, cur, i, cs);
    } else {
      Passed(line, cur, i, cs, k, 0);
      var tail := cs[1..];
      SeparatedTail(cs);
      assert forall j :: 0 <= j < |tail| ==> tail[j] == cs[j + 1];
      Pending(line, Substitute(cur, cs[0]), i, k - 1, tail);
    }
  }

  /**
   * A line in which some pattern of a separated script occurs: from the
   * leftmost occurrence on, it becomes that command's pattern followed by
   * its value, and the text before the occurrence is kept.
   */
  lemma FirstRewritten(line: string, cs: seq<Command>, i: nat, k: nat)
    requires Separated(cs) && FirstMatch(line, cs) == Some((i, k))
    ensures k < |cs| && Apply(line, cs) == line[..i] + cs[k].pattern + cs[k].value
  {
    Pending(line, line, i, k, cs);
  }

  /**
   * A line rewritten at the leftmost occurrence of a pattern goes through
   * the script again unchanged: the same occurrence is still the leftmost.
   */
  lemma RewrittenStable(line: string, cs: seq<Command>, i: nat, k: nat)
    requires Separated(cs) && k < |cs| && OccursAt(cs[k].pattern, line, i)
    requires forall j, x: nat :: 0 <= j < |cs| && x < i ==> !OccursAt(cs[j].pattern, line, x)
    ensures Apply(line[..i] + cs[k].pattern + cs[k].value, cs) == line[..i] + cs[k].pattern + cs[k].value
  {
    var p := cs[k].pattern;
    var out := line[..i] + p + cs[k].value;
    assert OccursAt(p, out, i) by { assert out[i..i + |p|] == p; }
    assert out[..i] == line[..i];
    forall j, x: nat | 0 <= j < |cs| && x < i
      ensures !OccursAt(cs[j].pattern, out, x)
    {
      var q := cs[j].pattern;
      if OccursAt(q, out, x) {
        if x + |q| <= i {
          OccursInPrefix(q, out, line, x, i);
        } else {
          PatternOverlap(cs, j, k, out, x, i);
        }
      }
    }
    Pending(out, out, i, k, cs);
  }

  /** Running a separated script over its own output changes nothing. */
  lemma ApplyIdempotent(line: string, cs: seq<Command>)
    requires Separated(cs)
    ensures Apply(Apply(line, cs), cs) == Apply(line, cs)
  {
    match FirstMatch(line, cs)
    case None =>
      Unmatched(line, cs);
    case Some((i, k)) =>
      FirstRewritten(line, cs, i, k);
      RewrittenStable(line, cs, i, k);
  }

  /** A line that starts with the pattern of one of the commands matches that command first. */
  lemma StartMatch(line: string, cs: seq<Command>, at: nat)
    requires Separated(cs) && at < |cs|
    requires StartsWith(line, cs[at].pattern)
    ensures FirstMatch(line, cs) == Some((0, at))
  {
    var p := cs[at].pattern;
    assert OccursAt(p, line, 0) by {
      assert line[0..|p|] == line[..|p|];
    }
    assert Contains(line, p);
    var (i, j) := FirstMatch(line, cs).value;
    PatternOverlap(cs, at, j, line, 0, i);
  }

  /** A line that starts with the pattern of one of the commands becomes that pattern and its value. */
  lemma StartRewritten(line: string, cs: seq<Command>, at: nat)
    requires Separated(cs) && at < |cs|
    requires StartsWith(line, cs[at].pattern)
    ensures Apply(line, cs) == cs[at].pattern + cs[at].value
  {
    StartMatch(line, cs, at);
    FirstRewritten(line, cs, 0, at);
    EmptyPrefix(line, cs[at].pattern, cs[at].value);
  }

  /** Rewriting a file twice with a separated script is rewriting it once. */
  lemma RewriteIdempotent(lines: seq<string>, cs: seq<Command>)
    requires Separated(cs)
    ensures RewriteLines(RewriteLines(lines, cs), cs) == RewriteLines(lines, cs)
  {
    var once := RewriteLines(lines, cs);
    forall n | 0 <= n < |lines|
      ensures RewriteLines(once, cs)[n] == once[n]
    {
      ApplyIdempotent(lines[n], cs);
    }
  }
}
