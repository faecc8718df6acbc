/**
 * Loss of gemination: the back-reference rules `(X)\1` → `\1`, which
 * collapse a unit immediately repeated into one copy. The unit is a single
 * character from a class (`(.)\1`, `([pbtdkg])\1`, `([^aeiouyEOX])\1`) or
 * one symbol out of a list of symbols (`(b|d|kʷ|...)\1`), tried in list order.
 */
module Gemination {
  import opened Results
  import opened Rewrite

  /** `([class])\1` → `\1`, one left-to-right pass without overlap. */
  function CollapsePairs(s: Text, cc: CharClass): (r: Text)
    ensures |r| <= |s|
    decreases |s|
  {
    if |s| < 2 then s
    else if cc.Has(s[0]) && s[1] == s[0] then
      var rest := CollapsePairs(s[2..], cc);
      assert s == [s[0], s[1]] + s[2..];
      [s[0]] + rest
    else
      var rest := CollapsePairs(s[1..], cc);
      assert s == [s[0]] + s[1..];
      [s[0]] + rest
  }

  /** Collapsing only drops second copies: the same characters occur before and after. */
  lemma {:induction false} CollapsePairsMembers(s: Text, cc: CharClass)
    ensures forall c :: c in CollapsePairs(s, cc) <==> c in s
    decreases |s|
  {
    if |s| >= 2 {
      if cc.Has(s[0]) && s[1] == s[0] {
        CollapsePairsMembers(s[2..], cc);
        assert s == [s[0], s[1]] + s[2..];
      } else {
        CollapsePairsMembers(s[1..], cc);
        assert s == [s[0]] + s[1..];
      }
    }
  }

  /** No two equal neighbours whose character is in the class. */
  predicate NoClassPair(s: Text, cc: CharClass)
  {
    forall i :: 0 <= i < |s| - 1 ==> !(cc.Has(s[i]) && s[i + 1] == s[i])
  }

  /** A word without a doubled class character is left as it is. */
  lemma {:induction false} CollapseUnchanged(s: Text, cc: CharClass)
    requires NoClassPair(s, cc)
    ensures CollapsePairs(s, cc) == s
    decreases |s|
  {
    if |s| >= 2 {
      assert !(cc.Has(s[0]) && s[1] == s[0]);
      assert NoClassPair(s[1..], cc) by {
        forall i | 0 <= i < |s[1..]| - 1
          ensures !(cc.Has(s[1..][i]) && s[1..][i + 1] == s[1..][i])
        {
          assert s[1..][i] == s[i + 1] && s[1..][i + 1] == s[i + 2];
        }
      }
      CollapseUnchanged(s[1..], cc);
      assert s == [s[0]] + s[1..];
    }
  }

  function Repeat(c: char, n: nat): (r: Text)
    ensures |r| == n
    ensures forall i :: 0 <= i < n ==> r[i] == c
  {
    if n == 0 then [] else [c] + Repeat(c, n - 1)
  }

  /** A class character followed by its copy: the pair becomes one copy, and the pass goes on after it. */
  lemma CollapsePairStep(c: char, t: Text, cc: CharClass)
    requires cc.Has(c)
    ensures CollapsePairs([c, c] + t, cc) == [c] + CollapsePairs(t, cc)
  {
    assert ([c, c] + t)[2..] == t;
  }

  /** A character not followed by its copy is kept, and the pass goes on after it. */
  lemma CollapseSingle(c: char, t: Text, cc: CharClass)
    requires |t| == 0 || t[0] != c
    ensures CollapsePairs([c] + t, cc) == [c] + CollapsePairs(t, cc)
  {
    if |t| == 0 {
      assert [c] + t == [c];
    } else {
      assert ([c] + t)[1..] == t;
    }
  }

  /** Two more copies in front of a run add one copy to what it shrinks to. */
  lemma CollapseRunStep(c: char, m: nat, h: nat, rest: Text, cc: CharClass)
    requires cc.Has(c)
    requires CollapsePairs(Repeat(c, m) + rest, cc) == Repeat(c, h) + CollapsePairs(rest, cc)
    ensures CollapsePairs(Repeat(c, m + 2) + rest, cc) == Repeat(c, h + 1) + CollapsePairs(rest, cc)
  {
    var t := Repeat(c, m) + rest;
    assert Repeat(c, m + 2) + rest == [c, c] + t by {
      assert Repeat(c, m + 2) == [c] + Repeat(c, m + 1);
      assert Repeat(c, m + 1) == [c] + Repeat(c, m);
    }
    CollapsePairStep(c, t, cc);
    calc {
      CollapsePairs(Repeat(c, m + 2) + rest, cc);
      [c] + CollapsePairs(t, cc);
      [c] + (Repeat(c, h) + CollapsePairs(rest, cc));
      ([c] + Repeat(c, h)) + CollapsePairs(rest, cc);
      Repeat(c, h + 1) + CollapsePairs(rest, cc);
    }
  }

  /**
   * A run of n copies of a class character shrinks to ⌈n/2⌉ copies: the pass
   * halves each pair it meets and never looks back at what it wrote.
   */
  lemma {:induction false} CollapseRun(c: char, n: nat, rest: Text, cc: CharClass)
    requires cc.Has(c)
    requires |rest| == 0 || rest[0] != c
    ensures CollapsePairs(Repeat(c, n) + rest, cc) == Repeat(c, (n + 1) / 2) + CollapsePairs(rest, cc)
    decreases n
  {
    if n == 0 {
      assert Repeat(c, 0) + rest == rest;
    } else if n == 1 {
      assert Repeat(c, 1) == [c];
      CollapseSingle(c, rest, cc);
    } else {
      CollapseRun(c, n - 2, rest, cc);
      assert (n - 2 + 1) / 2 == (n - 1) / 2 && (n + 1) / 2 == (n - 1) / 2 + 1;
      CollapseRunStep(c, n - 2, (n - 1) / 2, rest, cc);
    }
  }

  /** "aaa" becomes "aa" under `(.)\1`: the pass collapses each pair once. */
  lemma TripleBecomesDouble()
    ensures CollapsePairs("aaa", AnyChar) == "aa"
  {
    assert "aaa" == Repeat('a', 3) + "";
    CollapseRun('a', 3, "", AnyChar);
    assert Repeat('a', 2) == "aa";
  }

  /** A doubled character outside the class is not touched. */
  lemma OutsideClassKept(c: char, cc: CharClass)
    requires !cc.Has(c)
    ensures CollapsePairs([c, c], cc) == [c, c]
  {
    CollapseUnchanged([c, c], cc);
  }

  // ---------------------------------------------------------------------
  // Collapse over a list of symbols, several characters long.

  /** The first symbol from index `from` on whose double starts the text. */
  function FirstDoubled(syms: seq<Pattern>, s: Text, from: nat): (r: Option<nat>)
    decreases |syms| - from
    ensures r.Some? ==> from <= r.value < |syms| && StartsAt(s, syms[r.value] + syms[r.value], 0)
    ensures r.Some? ==> forall k :: from <= k < r.value ==> !StartsAt(s, syms[k] + syms[k], 0)
    ensures r.None? ==> forall k :: from <= k < |syms| ==> !StartsAt(s, syms[k] + syms[k], 0)
  {
    if from >= |syms| then None
    else if StartsAt(s, syms[from] + syms[from], 0) then Some(from)
    else FirstDoubled(syms, s, from + 1)
  }

  /** `(m1|m2|...)\1` → `\1`: at each position the first symbol whose double starts there. */
  function CollapseSymbols(s: Text, syms: seq<Pattern>): (r: Text)
    ensures |r| <= |s|
    decreases |s|
  {
    if s == [] then []
    else match FirstDoubled(syms, s, 0)
      case Some(k) =>
        var m := syms[k];
        var rest := CollapseSymbols(s[2 * |m|..], syms);
        assert s == m + m + s[2 * |m|..];
        m + rest
      case None =>
        var rest := CollapseSymbols(s[1..], syms);
        assert s == [s[0]] + s[1..];
        [s[0]] + rest
  }

  /** Collapsing only drops second copies: the same characters occur before and after. */
  lemma {:induction false} CollapseSymbolsMembers(s: Text, syms: seq<Pattern>)
    ensures forall c :: c in CollapseSymbols(s, syms) <==> c in s
    decreases |s|
  {
    if s != [] {
      match FirstDoubled(syms, s, 0)
      case Some(k) =>
        var m := syms[k];
        CollapseSymbolsMembers(s[2 * |m|..], syms);
        assert s == m + m + s[2 * |m|..];
      case None =>
        CollapseSymbolsMembers(s[1..], syms);
        assert s == [s[0]] + s[1..];
    }
  }

  /** The first symbol, from index `from` on, whose double starts the text is the k-th when the earlier ones miss. */
  lemma {:induction false} FirstDoubledIs(syms: seq<Pattern>, s: Text, from: nat, k: nat)
    requires from <= k < |syms| && StartsAt(s, syms[k] + syms[k], 0)
    requires forall j :: from <= j < k ==> !StartsAt(s, syms[j] + syms[j], 0)
    ensures FirstDoubled(syms, s, from) == Some(k)
    decreases k - from
  {
    if from < k {
      FirstDoubledIs(syms, s, from + 1, k);
    }
  }

  /**
   * A doubled symbol becomes one copy, provided no symbol listed before it
   * also has its double at the front (the alternation tries them in order).
   */
  lemma CollapseSymbolDouble(syms: seq<Pattern>, k: nat)
    requires k < |syms|
    requires forall j :: 0 <= j < k ==> !StartsAt(syms[k] + syms[k], syms[j] + syms[j], 0)
    ensures CollapseSymbols(syms[k] + syms[k], syms) == syms[k]
  {
    var m := syms[k];
    var s := m + m;
    assert s[0..|s|] == s;
    FirstDoubledIs(syms, s, 0, k);
    assert s[2 * |m|..] == [];
    assert CollapseSymbols(s, syms) == m + CollapseSymbols([], syms);
    assert m + [] == m;
  }

  /** Where the k-th symbol is the first whose double starts the word, the double becomes one copy and the scan resumes after it. */
  lemma CollapseSymbolsFired(syms: seq<Pattern>, k: nat, t: Text)
    requires k < |syms|
    requires forall j :: 0 <= j < k ==> !StartsAt(syms[k] + syms[k] + t, syms[j] + syms[j], 0)
    ensures CollapseSymbols(syms[k] + syms[k] + t, syms) == syms[k] + CollapseSymbols(t, syms)
  {
    var m := syms[k];
    var s := m + m + t;
    assert s[0..2 * |m|] == m + m;
    FirstDoubledIs(syms, s, 0, k);
    assert s[2 * |m|..] == t;
  }

  /** Where no listed double starts the word, its first character is copied and the scan moves one on. */
  lemma CollapseSymbolsCopied(syms: seq<Pattern>, c: char, t: Text)
    requires forall k :: 0 <= k < |syms| ==> !StartsAt([c] + t, syms[k] + syms[k], 0)
    ensures CollapseSymbols([c] + t, syms) == [c] + CollapseSymbols(t, syms)
  {
    var s := [c] + t;
    assert FirstDoubled(syms, s, 0).None?;
    assert s[1..] == t;
  }

  /** No listed double starting at positions 1..n of c + u means none starting at positions 0..n-1 of u. */
  lemma NoDoubleAfterHead(syms: seq<Pattern>, c: char, u: Text, n: nat)
    requires forall i, k :: 0 <= i <= n && 0 <= k < |syms| ==> !StartsAt([c] + u, syms[k] + syms[k], i)
    ensures forall i, k :: 0 <= i < n && 0 <= k < |syms| ==> !StartsAt(u, syms[k] + syms[k], i)
  {
    forall i, k | 0 <= i < n && 0 <= k < |syms|
      ensures !StartsAt(u, syms[k] + syms[k], i)
    {
      var d := syms[k] + syms[k];
      assert !StartsAt([c] + u, d, i + 1);
      if i + |d| <= |u| {
        assert ([c] + u)[i + 1..i + 1 + |d|] == u[i..i + |d|];
      }
    }
  }

  /** A stretch at whose positions no listed double starts is copied as it is, and the scan goes on after it. */
  lemma {:induction false} CollapseSymbolsPrefix(syms: seq<Pattern>, p: Text, t: Text)
    requires forall i, k :: 0 <= i < |p| && 0 <= k < |syms| ==> !StartsAt(p + t, syms[k] + syms[k], i)
    ensures CollapseSymbols(p + t, syms) == p + CollapseSymbols(t, syms)
    decreases |p|
  {
    if p == [] {
      assert p + t == t;
    } else {
      var q := p[1..];
      assert p + t == [p[0]] + (q + t) && p == [p[0]] + q;
      CollapseSymbolsCopied(syms, p[0], q + t);
      NoDoubleAfterHead(syms, p[0], q + t, |q|);
      CollapseSymbolsPrefix(syms, q, t);
    }
  }

  /** When every listed symbol starts with c, a word without c comes back unchanged. */
  lemma NoHeadUnchanged(syms: seq<Pattern>, c: char, t: Text)
    requires forall k :: 0 <= k < |syms| ==> syms[k][0] == c
    requires c !in t
    ensures CollapseSymbols(t, syms) == t
  {
    forall i, k | 0 <= i < |t| && 0 <= k < |syms|
      ensures !StartsAt(t, syms[k] + syms[k], i)
    {
      assert (syms[k] + syms[k])[0] == c;
    }
    CollapseSymbolsUnchanged(t, syms);
  }

  /** When every listed symbol starts with c, a character other than c is copied. */
  lemma OtherHeadCopied(syms: seq<Pattern>, c: char, v: char, u: Text)
    requires forall k :: 0 <= k < |syms| ==> syms[k][0] == c
    requires v != c
    ensures CollapseSymbols([v] + u, syms) == [v] + CollapseSymbols(u, syms)
  {
    forall k | 0 <= k < |syms|
      ensures !StartsAt([v] + u, syms[k] + syms[k], 0)
    {
      assert ([v] + u)[0] == v && (syms[k] + syms[k])[0] == c;
    }
    CollapseSymbolsCopied(syms, v, u);
  }

  /**
   * With k listed before kʷ, a doubled kʷ after any character but k becomes
   * one kʷ, as "akʷkʷa" becomes "akʷa": kk does not start "kʷkʷ", so the
   * alternation goes on to kʷ.
   */
  lemma LabiovelarGeminate(syms: seq<Pattern>, v: char, t: Text)
    requires |syms| == 2 && syms[0] == "k" && syms[1] == "kʷ"
    requires v != 'k' && 'k' !in t
    ensures CollapseSymbols([v] + syms[1] + syms[1] + t, syms) == [v] + syms[1] + t
  {
    var kw := syms[1];
    var rest := kw + kw + t;
    assert forall k :: 0 <= k < |syms| ==> syms[k][0] == 'k';
    OtherHeadCopied(syms, 'k', v, rest);
    assert !StartsAt(rest, syms[0] + syms[0], 0) by { assert rest[1] == 'ʷ' && (syms[0] + syms[0])[1] == 'k'; }
    CollapseSymbolsFired(syms, 1, t);
    NoHeadUnchanged(syms, 'k', t);
    assert [v] + kw + kw + t == [v] + rest;
  }

  /** A word where no listed symbol is doubled at any position comes back unchanged. */
  lemma {:induction false} CollapseSymbolsUnchanged(s: Text, syms: seq<Pattern>)
    requires forall i, k :: 0 <= i < |s| && 0 <= k < |syms| ==> !StartsAt(s, syms[k] + syms[k], i)
    ensures CollapseSymbols(s, syms) == s
    decreases |s|
  {
    if s != [] {
      forall k | 0 <= k < |syms|
        ensures !StartsAt(s, syms[k] + syms[k], 0)
      {
      }
      assert FirstDoubled(syms, s, 0).None?;
      forall i, k | 0 <= i < |s[1..]| && 0 <= k < |syms|
        ensures !StartsAt(s[1..], syms[k] + syms[k], i)
      {
        var d := syms[k] + syms[k];
        assert !StartsAt(s, d, i + 1);
        if i + |d| <= |s[1..]| {
          assert s[1..][i..i + |d|] == s[i + 1..i + 1 + |d|];
        }
      }
      CollapseSymbolsUnchanged(s[1..], syms);
      assert s == [s[0]] + s[1..];
    }
  }
}
