/**
 * The rewrite rules of the converters, in the shapes whose meaning can be
 * stated exactly. A rule is a top-level regular-expression alternation whose
 * branches are literal strings, each guarded by a lookbehind and a lookahead
 * built from literal alternatives and the anchors `^` and `$`. A rule is
 * applied the way Python's `re.sub` and `regex.sub` apply a pattern: one pass
 * from left to right, taking at each position the first branch that matches
 * there, never revisiting replaced text, and judging every lookaround against
 * the input of the pass rather than the partly rewritten result.
 */
module Rewrite {
  import opened Results

  type Text = seq<char>

  /**
   * `re.sub(pattern, repl, string)` (or `regex.sub`) for the rules outside
   * the shapes below: the regular-expression engine, a parameter of the model.
   */
  type Engine = (Text, Text, Text) -> Text

  predicate StartsAt(s: Text, p: Text, i: nat)
  {
    i + |p| <= |s| && s[i..i + |p|] == p
  }

  predicate EndsAt(s: Text, p: Text, i: nat)
  {
    |p| <= i <= |s| && s[i - |p|..i] == p
  }

  /** Python's `$` without the MULTILINE flag: the end of the string, or just before a final newline. */
  predicate AtEndAnchor(s: Text, i: nat)
  {
    i == |s| || (i + 1 == |s| && s[i] == '\n')
  }

  /** A one-character class: `[abc]`, `[^abc]`, or `.` (any character but a newline). */
  datatype CharClass = OneOf(chars: set<char>) | NoneOf(chars: set<char>)
  {
    predicate Has(c: char)
    {
      if OneOf? then c in chars else c !in chars
    }
  }

  const AnyChar: CharClass := NoneOf({'\n'})

  /** A zero-width assertion: `^`, `$`, `(?=a|b)`, `(?<=a|b)`, their negations and combinations. */
  datatype Look =
    | Always
    | AtStart
    | AtEnd
    | Ahead(alts: seq<Text>)
    | Behind(alts: seq<Text>)
    | Not(look: Look)
    | Or(left: Look, right: Look)
    | And(left: Look, right: Look)

  predicate Holds(look: Look, s: Text, i: nat)
  {
    match look
    case Always => true
    case AtStart => i == 0
    case AtEnd => AtEndAnchor(s, i)
    case Ahead(alts) => exists k :: 0 <= k < |alts| && StartsAt(s, alts[k], i)
    case Behind(alts) => exists k :: 0 <= k < |alts| && EndsAt(s, alts[k], i)
    case Not(l) => !Holds(l, s, i)
    case Or(l, r) => Holds(l, s, i) || Holds(r, s, i)
    case And(l, r) => Holds(l, s, i) && Holds(r, s, i)
  }

  /** The text a branch consumes: never empty (zero-width rules are `InsertAtStart`). */
  type Pattern = p: Text | |p| > 0 witness "."

  /** One branch `(?<=pre)pat(?=post)` of an alternation, rewritten to `rep`. */
  datatype Alt = Alt(pre: Look, pat: Pattern, post: Look, rep: Text)

  /** The branches of a rule, in the order the regular-expression engine tries them. */
  type Rule = seq<Alt>

  predicate Fires(a: Alt, s: Text, i: nat)
  {
    StartsAt(s, a.pat, i) && Holds(a.pre, s, i) && Holds(a.post, s, i + |a.pat|)
  }

  /** The first branch, from index `from` on, that matches at position i. */
  function FirstFiring(rule: Rule, s: Text, i: nat, from: nat): (r: Option<nat>)
    decreases |rule| - from
    ensures r.Some? ==> from <= r.value < |rule| && i + |rule[r.value].pat| <= |s|
  {
    if from >= |rule| then None
    else if Fires(rule[from], s, i) then Some(from)
    else FirstFiring(rule, s, i, from + 1)
  }

  /** The branch chosen matches, and none before it does; when none is chosen, none matches. */
  lemma {:induction false} FirstFiringSpec(rule: Rule, s: Text, i: nat, from: nat)
    ensures var r := FirstFiring(rule, s, i, from);
      && (r.Some? ==> from <= r.value < |rule| && Fires(rule[r.value], s, i))
      && (r.Some? ==> forall k :: from <= k < r.value ==> !Fires(rule[k], s, i))
      && (r.None? ==> forall k :: from <= k < |rule| ==> !Fires(rule[k], s, i))
    decreases |rule| - from
  {
    if from < |rule| && !Fires(rule[from], s, i) {
      FirstFiringSpec(rule, s, i, from + 1);
    }
  }

  /** The output of the pass for the input from position i on. */
  function ApplyFrom(rule: Rule, s: Text, i: nat): Text
    requires i <= |s|
    decreases |s| - i
  {
    if i == |s| then []
    else match FirstFiring(rule, s, i, 0)
      case Some(k) => rule[k].rep + ApplyFrom(rule, s, i + |rule[k].pat|)
      case None => [s[i]] + ApplyFrom(rule, s, i + 1)
  }

  /** Where the k-th branch is the first to match, the pass writes its replacement and goes on after the match. */
  lemma ApplyFromFired(rule: Rule, s: Text, i: nat, k: nat)
    requires i < |s| && FirstFiring(rule, s, i, 0) == Some(k)
    ensures i + |rule[k].pat| <= |s| && s[i..] == rule[k].pat + s[i + |rule[k].pat|..]
    ensures ApplyFrom(rule, s, i) == rule[k].rep + ApplyFrom(rule, s, i + |rule[k].pat|)
  {
    var j := i + |rule[k].pat|;
    FirstFiringSpec(rule, s, i, 0);
    assert StartsAt(s, rule[k].pat, i);
    assert s[i..] == s[i..j] + s[j..];
  }

  /** Where no branch matches, the pass copies the character and goes on. */
  lemma ApplyFromCopied(rule: Rule, s: Text, i: nat)
    requires i < |s| && FirstFiring(rule, s, i, 0).None?
    ensures ApplyFrom(rule, s, i) == [s[i]] + ApplyFrom(rule, s, i + 1)
  {
  }

  /** One application of a rule to a whole word. */
  function Apply(rule: Rule, s: Text): Text
  {
    ApplyFrom(rule, s, 0)
  }

  /** `^(?=look)` rewritten to `rep`: the only zero-width rule shape, matching at position 0 at most. */
  function InsertAtStart(s: Text, look: Look, rep: Text): (r: Text)
    ensures Holds(look, s, 0) ==> r == rep + s
    ensures !Holds(look, s, 0) ==> r == s
  {
    if Holds(look, s, 0) then rep + s else s
  }

  // ---------------------------------------------------------------------
  // Rule builders for the notations the converters use.

  /** A literal pattern `p` with replacement `r`. */
  function Lit(p: Pattern, r: Text): Rule
  {
    [Alt(Always, p, Always, r)]
  }

  /** `(?:p1|p2|...)` with replacement `r`, under common lookarounds. */
  function Ctx(pre: Look, ps: seq<Pattern>, post: Look, r: Text): (rule: Rule)
    ensures |rule| == |ps|
  {
    seq(|ps|, k requires 0 <= k < |ps| => Alt(pre, ps[k], post, r))
  }

  /** `(?:p1|p2|...)` with replacement `r`. */
  function Lits(ps: seq<Pattern>, r: Text): Rule
  {
    Ctx(Always, ps, Always, r)
  }

  /** A pattern anchored at the end, `p$`. */
  function Suffix(p: Pattern, r: Text): Rule
  {
    [Alt(Always, p, AtEnd, r)]
  }

  /** The one-character alternatives of a character class `[abc]`. */
  function Chars(cs: Text): (alts: seq<Text>)
    ensures |alts| == |cs|
  {
    seq(|cs|, k requires 0 <= k < |cs| => [cs[k]])
  }

  /** `p` followed by one of `alts`, as in `s{join(consonants)}`. */
  function Prefixed(p: Text, alts: seq<Text>): (r: seq<Text>)
    ensures |r| == |alts|
  {
    seq(|alts|, k requires 0 <= k < |alts| => p + alts[k])
  }

  /** Alternatives none of which is empty. */
  predicate NonEmpty(alts: seq<Text>)
  {
    forall k :: 0 <= k < |alts| ==> |alts[k]| > 0
  }

  /** Every x + y with x from xs and y from ys, in the order an engine tries them: `(?:x1|x2)(?:y1|y2)`. */
  function Product(xs: seq<Text>, ys: seq<Text>): seq<Text>
  {
    if xs == [] then [] else Prefixed(xs[0], ys) + Product(xs[1..], ys)
  }

  /** The branches of a product are exactly the concatenations of a branch of each group. */
  lemma {:induction false} ProductMembers(xs: seq<Text>, ys: seq<Text>)
    ensures forall x, y :: x in xs && y in ys ==> x + y in Product(xs, ys)
    ensures forall z :: z in Product(xs, ys) ==> exists x, y :: x in xs && y in ys && z == x + y
  {
    if xs != [] {
      ProductMembers(xs[1..], ys);
      var head := Prefixed(xs[0], ys);
      assert Product(xs, ys) == head + Product(xs[1..], ys);
      forall z | z in Product(xs, ys)
        ensures exists x, y :: x in xs && y in ys && z == x + y
      {
        if z in head {
          var k :| 0 <= k < |head| && head[k] == z;
          assert xs[0] in xs && ys[k] in ys && z == xs[0] + ys[k];
        } else {
          assert z in Product(xs[1..], ys);
          var x, y :| x in xs[1..] && y in ys && z == x + y;
          assert x in xs;
        }
      }
      forall x, y | x in xs && y in ys
        ensures x + y in Product(xs, ys)
      {
        if x == xs[0] {
          var k :| 0 <= k < |ys| && ys[k] == y;
          assert head[k] == x + y;
        } else {
          var i :| 0 <= i < |xs| && xs[i] == x;
          assert xs[1..][i - 1] == x;
          assert x + y in Product(xs[1..], ys);
        }
      }
    }
  }

  /**
   * A capturing group `before(g1|g2|...)after` whose replacement puts the
   * captured text back between `repBefore` and `repAfter`.
   */
  function Captured(pre: Look, before: Text, group: seq<Text>, after: Text, post: Look, repBefore: Text, repAfter: Text): (rule: Rule)
    requires |before| + |after| > 0 || NonEmpty(group)
    ensures |rule| == |group|
  {
    seq(|group|, k requires 0 <= k < |group| => Alt(pre, before + group[k] + after, post, repBefore + group[k] + repAfter))
  }

  /** Some branch of the rule writes character c. */
  predicate Writes(rule: Rule, c: char)
  {
    exists k :: 0 <= k < |rule| && c in rule[k].rep
  }

  /** The rule has an unguarded branch whose pattern is the single character c. */
  predicate Rewrites(rule: Rule, c: char)
  {
    exists k :: 0 <= k < |rule| && rule[k].pre == Always && rule[k].pat == [c] && rule[k].post == Always
  }

  /** A literal one-character rule rewrites that character wherever it stands. */
  lemma LitRewrites(c: char, r: Text)
    ensures Rewrites(Lit([c], r), c)
    ensures Writes(Lit([c], r), c) <==> c in r
  {
    assert Lit([c], r)[0] == Alt(Always, [c], Always, r);
  }

  // ---------------------------------------------------------------------
  // What one pass does.

  lemma NothingFiresAt(rule: Rule, s: Text, i: nat)
    requires forall k :: 0 <= k < |rule| ==> !Fires(rule[k], s, i)
    ensures FirstFiring(rule, s, i, 0).None?
  {
    FirstFiringSpec(rule, s, i, 0);
  }


  /** Where no branch is chosen on positions [i, j), the pass copies s[i..j] verbatim. */
  lemma {:induction false} CopiesWhereNoneChosen(rule: Rule, s: Text, i: nat, j: nat)
    requires i <= j <= |s|
    requires forall p :: i <= p < j ==> FirstFiring(rule, s, p, 0).None?
    ensures ApplyFrom(rule, s, i) == s[i..j] + ApplyFrom(rule, s, j)
    decreases j - i
  {
    if i < j {
      ApplyFromCopied(rule, s, i);
      CopiesWhereNoneChosen(rule, s, i + 1, j);
      assert s[i..j] == [s[i]] + s[i + 1..j];
    }
  }

  /** Where no branch matches on positions [i, j), the pass copies s[i..j] verbatim. */
  lemma CopiesWhereNothingFires(rule: Rule, s: Text, i: nat, j: nat)
    requires i <= j <= |s|
    requires forall p, k :: i <= p < j && 0 <= k < |rule| ==> !Fires(rule[k], s, p)
    ensures ApplyFrom(rule, s, i) == s[i..j] + ApplyFrom(rule, s, j)
  {
    forall p | i <= p < j
      ensures FirstFiring(rule, s, p, 0).None?
    {
      NothingFiresAt(rule, s, p);
    }
    CopiesWhereNoneChosen(rule, s, i, j);
  }

  /** Text in which no branch matches anywhere comes back unchanged. */
  lemma ApplyUnchanged(rule: Rule, s: Text)
    requires forall p, k :: 0 <= p < |s| && 0 <= k < |rule| ==> !Fires(rule[k], s, p)
    ensures Apply(rule, s) == s
  {
    CopiesWhereNothingFires(rule, s, 0, |s|);
  }

  /** A branch never matches text that lacks its pattern's first or last character. */
  lemma EndsAbsent(rule: Rule, s: Text)
    requires forall k :: 0 <= k < |rule| ==> rule[k].pat[0] !in s || rule[k].pat[|rule[k].pat| - 1] !in s
    ensures Apply(rule, s) == s
  {
    forall p, k | 0 <= p < |s| && 0 <= k < |rule|
      ensures !Fires(rule[k], s, p)
    {
      var pat := rule[k].pat;
      if p + |pat| <= |s| {
        assert s[p..p + |pat|][0] == s[p] && s[p..p + |pat|][|pat| - 1] == s[p + |pat| - 1];
      }
    }
    ApplyUnchanged(rule, s);
  }

  /** A character absent from s[i..] is absent from every later suffix, and is not s[i]. */
  lemma AbsentFrom(s: Text, i: nat, j: nat, c: char)
    requires i <= j <= |s| && c !in s[i..]
    ensures c !in s[j..] && (i < |s| ==> s[i] != c)
  {
    assert s[j..] == s[i..][j - i..];
    if i < |s| {
      assert s[i] == s[i..][0];
    }
  }

  lemma {:induction false} KeepsOutFrom(rule: Rule, s: Text, i: nat, c: char)
    requires i <= |s|
    requires c !in s[i..] && !Writes(rule, c)
    ensures c !in ApplyFrom(rule, s, i)
    decreases |s| - i
  {
    if i == |s| {
      assert ApplyFrom(rule, s, i) == [];
    } else {
      match FirstFiring(rule, s, i, 0)
      case Some(k) =>
        AbsentFrom(s, i, i + |rule[k].pat|, c);
        KeepsOutFrom(rule, s, i + |rule[k].pat|, c);
        assert c !in rule[k].rep;
        FiredKeepsOut(rule, s, i, k, c);
      case None =>
        AbsentFrom(s, i, i + 1, c);
        KeepsOutFrom(rule, s, i + 1, c);
        CopiedKeepsOut(rule, s, i, c);
    }
  }



  /** A pass never introduces a character that neither the input nor any replacement holds. */
  lemma KeepsOut(rule: Rule, s: Text, c: char)
    requires c !in s && !Writes(rule, c)
    ensures c !in Apply(rule, s)
  {
    assert s[0..] == s;
    KeepsOutFrom(rule, s, 0, c);
  }

  /** A character copied by a rule that rewrites c everywhere is not c. */
  lemma CopiedIsNot(rule: Rule, s: Text, i: nat, c: char)
    requires i < |s| && Rewrites(rule, c)
    requires FirstFiring(rule, s, i, 0).None?
    ensures s[i] != c
  {
    FirstFiringSpec(rule, s, i, 0);
    var k :| 0 <= k < |rule| && rule[k].pre == Always && rule[k].pat == [c] && rule[k].post == Always;
    assert !Fires(rule[k], s, i);
    assert s[i..i + 1] == [s[i]];
  }

  /** Where a branch fires, c is kept out when its replacement and the rest of the output hold none. */
  lemma FiredKeepsOut(rule: Rule, s: Text, i: nat, k: nat, c: char)
    requires i < |s| && FirstFiring(rule, s, i, 0) == Some(k)
    requires c !in rule[k].rep && c !in ApplyFrom(rule, s, i + |rule[k].pat|)
    ensures c !in ApplyFrom(rule, s, i)
  {
    ApplyFromFired(rule, s, i, k);
  }

  /** Where a character is copied, c is kept out when that character and the rest of the output are not c. */
  lemma CopiedKeepsOut(rule: Rule, s: Text, i: nat, c: char)
    requires i < |s| && FirstFiring(rule, s, i, 0).None?
    requires s[i] != c && c !in ApplyFrom(rule, s, i + 1)
    ensures c !in ApplyFrom(rule, s, i)
  {
    ApplyFromCopied(rule, s, i);
  }

  lemma {:induction false} RemovesFrom(rule: Rule, s: Text, i: nat, c: char)
    requires i <= |s|
    requires Rewrites(rule, c) && !Writes(rule, c)
    ensures c !in ApplyFrom(rule, s, i)
    decreases |s| - i
  {
    if i == |s| {
      assert ApplyFrom(rule, s, i) == [];
    } else {
      match FirstFiring(rule, s, i, 0)
      case Some(k) =>
        RemovesFrom(rule, s, i + |rule[k].pat|, c);
        assert c !in rule[k].rep;
        FiredKeepsOut(rule, s, i, k, c);
      case None =>
        RemovesFrom(rule, s, i + 1, c);
        CopiedIsNot(rule, s, i, c);
        CopiedKeepsOut(rule, s, i, c);
    }
  }



  /**
   * A rule that rewrites every c unconditionally, and writes no c itself,
   * leaves no c behind: it is a single pass, yet it reaches every occurrence.
   */
  lemma Removes(rule: Rule, s: Text, c: char)
    requires Rewrites(rule, c) && !Writes(rule, c)
    ensures c !in Apply(rule, s)
  {
    RemovesFrom(rule, s, 0, c);
  }

  /** A literal deletion of one character, as `sub('h', '', word)`, leaves no copy of it. */
  lemma DeletesAll(c: char, s: Text)
    ensures c !in Apply(Lit([c], ""), s)
  {
    LitRewrites(c, "");
    Removes(Lit([c], ""), s, c);
  }

  /** Every branch writes as many copies of m as it consumes. */
  predicate Balanced(rule: Rule, m: char)
  {
    forall k :: 0 <= k < |rule| ==> multiset(rule[k].pat)[m] == multiset(rule[k].rep)[m]
  }

  lemma CountSplit(a: Text, b: Text, m: char)
    ensures multiset(a + b)[m] == multiset(a)[m] + multiset(b)[m]
  {
  }

  /** Where a branch fires, the count of m in its output and its input differ as its replacement and pattern do. */
  lemma CountFired(rule: Rule, s: Text, i: nat, k: nat, m: char)
    requires i < |s| && Balanced(rule, m)
    requires FirstFiring(rule, s, i, 0) == Some(k)
    requires multiset(ApplyFrom(rule, s, i + |rule[k].pat|))[m] == multiset(s[i + |rule[k].pat|..])[m]
    ensures multiset(ApplyFrom(rule, s, i))[m] == multiset(s[i..])[m]
  {
    var a := rule[k];
    var j := i + |a.pat|;
    ApplyFromFired(rule, s, i, k);
    CountSplit(a.rep, ApplyFrom(rule, s, j), m);
    CountSplit(a.pat, s[j..], m);
  }


  /** Where no branch fires, the character is copied. */
  lemma CountCopied(rule: Rule, s: Text, i: nat, m: char)
    requires i < |s|
    requires FirstFiring(rule, s, i, 0).None?
    requires multiset(ApplyFrom(rule, s, i + 1))[m] == multiset(s[i + 1..])[m]
    ensures multiset(ApplyFrom(rule, s, i))[m] == multiset(s[i..])[m]
  {
    var rest := ApplyFrom(rule, s, i + 1);
    ApplyFromCopied(rule, s, i);
    assert s[i..] == [s[i]] + s[i + 1..];
    CountSplit([s[i]], rest, m);
    CountSplit([s[i]], s[i + 1..], m);
  }

  lemma {:induction false} PreservesCountFrom(rule: Rule, s: Text, i: nat, m: char)
    requires i <= |s| && Balanced(rule, m)
    ensures multiset(ApplyFrom(rule, s, i))[m] == multiset(s[i..])[m]
    decreases |s| - i
  {
    if i < |s| {
      match FirstFiring(rule, s, i, 0)
      case Some(k) =>
        PreservesCountFrom(rule, s, i + |rule[k].pat|, m);
        CountFired(rule, s, i, k, m);
      case None =>
        PreservesCountFrom(rule, s, i + 1, m);
        CountCopied(rule, s, i, m);
    }
  }

  /** A rule whose branches each keep the number of markers m keeps the number of m in the word. */
  lemma PreservesCount(rule: Rule, s: Text, m: char)
    requires Balanced(rule, m)
    ensures multiset(Apply(rule, s))[m] == multiset(s)[m]
  {
    PreservesCountFrom(rule, s, 0, m);
    assert s[0..] == s;
  }

  /**
   * A rule anchored at the end rewrites at most the word's final |p|
   * characters: the suffix p when it is there, and nothing otherwise.
   */
  lemma SuffixRule(p: Pattern, r: Text, s: Text)
    requires '\n' !in s
    ensures Apply(Suffix(p, r), s) == if EndsAt(s, p, |s|) then s[..|s| - |p|] + r else s
  {
    var rule := Suffix(p, r);
    if |p| > |s| {
      ApplyUnchanged(rule, s);
    } else {
      var j := |s| - |p|;
      forall q, k | 0 <= q < |s| && q != j && 0 <= k < |rule|
        ensures !Fires(rule[k], s, q)
      {
        if q < j && StartsAt(s, p, q) {
          assert s[q + |p|] in s;
        }
      }
      CopiesWhereNothingFires(rule, s, 0, j);
      if EndsAt(s, p, |s|) {
        assert Fires(rule[0], s, j);
        assert s[0..j] == s[..|s| - |p|];
      } else {
        assert !Fires(rule[0], s, j);
        ApplyUnchanged(rule, s);
      }
    }
  }

  // ---------------------------------------------------------------------
  // Rules applied one after another.

  /** Applies rules[from..] in order, each to the output of the one before. */
  function Chain(rules: seq<Rule>, from: nat, w: Text): Text
    decreases |rules| - from
  {
    if from >= |rules| then w else Chain(rules, from + 1, Apply(rules[from], w))
  }

  /** Rules that leave the word as it is can be skipped. */
  lemma {:induction false} ChainSkips(rules: seq<Rule>, from: nat, until: nat, w: Text)
    requires from <= until <= |rules|
    requires forall j :: from <= j < until ==> Apply(rules[j], w) == w
    ensures Chain(rules, from, w) == Chain(rules, until, w)
    decreases until - from
  {
    if from < until {
      ChainSkips(rules, from + 1, until, w);
    }
  }

  /** A chain of rules none of which writes c never brings c back. */
  lemma {:induction false} ChainKeepsOut(rules: seq<Rule>, from: nat, w: Text, c: char)
    requires forall k :: from <= k < |rules| ==> !Writes(rules[k], c)
    requires c !in w
    ensures c !in Chain(rules, from, w)
    decreases |rules| - from
  {
    if from < |rules| {
      KeepsOut(rules[from], w, c);
      ChainKeepsOut(rules, from + 1, Apply(rules[from], w), c);
    }
  }

  /** Once a rule of the chain rewrites every c, and none from there on writes one, no c is left. */
  lemma {:induction false} ChainRemoves(rules: seq<Rule>, from: nat, k: nat, w: Text, c: char)
    requires from <= k < |rules| && Rewrites(rules[k], c)
    requires forall j :: k <= j < |rules| ==> !Writes(rules[j], c)
    ensures c !in Chain(rules, from, w)
    decreases k - from
  {
    if from == k {
      Removes(rules[k], w, c);
      ChainKeepsOut(rules, k + 1, Apply(rules[k], w), c);
    } else {
      ChainRemoves(rules, from + 1, k, Apply(rules[from], w), c);
    }
  }

  /** Every replacement of the rules from index `from` on is one of reps. */
  predicate WritesFrom(rules: seq<Rule>, from: nat, reps: seq<Text>)
  {
    forall j, k :: from <= j < |rules| && 0 <= k < |rules[j]| ==> rules[j][k].rep in reps
  }

  /** A character none of the replacements holds is written by none of the rules. */
  lemma NoneWrites(rules: seq<Rule>, from: nat, reps: seq<Text>, c: char)
    requires WritesFrom(rules, from, reps)
    requires forall i :: 0 <= i < |reps| ==> c !in reps[i]
    ensures forall j :: from <= j < |rules| ==> !Writes(rules[j], c)
  {
  }

  /**
   * A chain in which one rule rewrites every c unconditionally, and no rule
   * from that one on writes a c, leaves no c behind.
   */
  lemma ChainRemovesLit(rules: seq<Rule>, from: nat, k: nat, w: Text, c: char, r: Text, reps: seq<Text>)
    requires from <= k < |rules| && rules[k] == Lit([c], r)
    requires WritesFrom(rules, k, reps) && forall i :: 0 <= i < |reps| ==> c !in reps[i]
    ensures c !in Chain(rules, from, w)
  {
    LitRewrites(c, r);
    NoneWrites(rules, k, reps, c);
    ChainRemoves(rules, from, k, w, c);
  }

  /** A chain of rules that each keep the count of m keeps it. */
  lemma {:induction false} ChainPreservesCount(rules: seq<Rule>, from: nat, w: Text, m: char)
    requires forall k :: from <= k < |rules| ==> Balanced(rules[k], m)
    ensures multiset(Chain(rules, from, w))[m] == multiset(w)[m]
    decreases |rules| - from
  {
    if from < |rules| {
      PreservesCount(rules[from], w, m);
      ChainPreservesCount(rules, from + 1, Apply(rules[from], w), m);
    }
  }

  /** One pass never rewrites overlapping spans: "aa" to "a" turns "aaa" into "aa". */
  lemma NonOverlapping()
    ensures Apply(Lit("aa", "a"), "aaa") == "aa"
  {
    var rule := Lit("aa", "a");
    var s := "aaa";
    assert Fires(rule[0], s, 0);
    assert !StartsAt(s, "aa", 2);
    assert FirstFiring(rule, s, 2, 0).None?;
    assert ApplyFrom(rule, s, 2) == "a";
  }
}
