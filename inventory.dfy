/**
 * The symbol inventory of new/french_converter.py: the two module-level
 * lists `consonants` and `vowels` that the stages grow and shrink between
 * rules, and `join`, which renders a list as the alternation group that rules
 * splice into their patterns at the moment they run.
 */
module Inventory {
  import opened Rewrite

  /** One sound, written with one or more characters ("k", "kʷ", "ʦ"); it is spliced into patterns, so it is never empty. */
  type Symbol = Pattern

  datatype SymbolClass = Consonants | Vowels

  const LatinConsonants: seq<Symbol> :=
    ["b", "d", "f", "g", "h", "j", "k", "l", "m", "n", "p", "r", "s", "t", "v", "w", "z"]

  const LatinVowels: seq<Symbol> := ["a", "e", "i", "o", "u"]

  /** Characters with a meaning of their own in a pattern. */
  const MetaChars: set<char> := {'|', '(', ')', '[', ']', '{', '}', '.', '*', '+', '?', '^', '$', '\\'}

  /** A symbol that stands for itself inside a pattern. */
  predicate Plain(x: Symbol)
  {
    forall i :: 0 <= i < |x| ==> x[i] !in MetaChars
  }

  predicate AllPlain(xs: seq<Symbol>)
  {
    forall k :: 0 <= k < |xs| ==> Plain(xs[k])
  }

  // ---------------------------------------------------------------------
  // `[i for i in listed if i not in excluded]`

  /** The members of `listed` not in `excluded`, in order and with their duplicates. */
  function Kept(listed: seq<Symbol>, excluded: seq<Symbol>): (r: seq<Symbol>)
    ensures |r| <= |listed|
  {
    if listed == [] then [] else if listed[0] in excluded then Kept(listed[1..], excluded) else [listed[0]] + Kept(listed[1..], excluded)
  }

  /** Exactly the listed symbols that are not excluded are kept, and plain symbols stay plain. */
  lemma {:induction false} KeptMembers(listed: seq<Symbol>, excluded: seq<Symbol>)
    ensures forall x :: x in Kept(listed, excluded) <==> x in listed && x !in excluded
    ensures AllPlain(listed) ==> AllPlain(Kept(listed, excluded))
    decreases |listed|
  {
    if listed != [] {
      KeptMembers(listed[1..], excluded);
      assert listed == [listed[0]] + listed[1..];
      if AllPlain(listed) {
        assert AllPlain(listed[1..]) by {
          forall k | 0 <= k < |listed[1..]|
            ensures Plain(listed[1..][k])
          {
            assert listed[1..][k] == listed[k + 1];
          }
        }
        var r := Kept(listed, excluded);
        forall k | 0 <= k < |r|
          ensures Plain(r[k])
        {
          if listed[0] !in excluded && k == 0 {
            assert Plain(listed[0]);
          } else if listed[0] !in excluded {
            assert r[k] == Kept(listed[1..], excluded)[k - 1];
          }
        }
      }
    }
  }

  /** Filtering is taken piecewise, so the kept members stay in their order. */
  lemma {:induction false} KeptConcat(a: seq<Symbol>, b: seq<Symbol>, excluded: seq<Symbol>)
    ensures Kept(a + b, excluded) == Kept(a, excluded) + Kept(b, excluded)
    decreases |a|
  {
    if a == [] {
      assert a + b == b;
    } else {
      assert (a + b)[0] == a[0];
      assert (a + b)[1..] == a[1..] + b;
      KeptConcat(a[1..], b, excluded);
    }
  }

  /** With nothing excluded, every member is kept. */
  lemma {:induction false} KeptNothing(listed: seq<Symbol>)
    ensures Kept(listed, []) == listed
    decreases |listed|
  {
    if listed != [] {
      KeptNothing(listed[1..]);
      assert listed == [listed[0]] + listed[1..];
    }
  }

  // ---------------------------------------------------------------------
  // `list.remove`

  /** Python's `list.remove(x)`: drops the first x; `list.remove` raises when x is absent, and the list is left alone. */
  function RemoveFirst(s: seq<Symbol>, x: Symbol): (r: seq<Symbol>)
    ensures x in s ==> |r| == |s| - 1
    ensures x !in s ==> r == s
  {
    if s == [] then []
    else if s[0] == x then s[1..]
    else
      assert s == [s[0]] + s[1..];
      [s[0]] + RemoveFirst(s[1..], x)
  }

  /** Only the first copy goes: the part before it and the part after it are kept as they are. */
  lemma {:induction false} RemoveFirstSplit(a: seq<Symbol>, x: Symbol, b: seq<Symbol>)
    requires x !in a
    ensures RemoveFirst(a + [x] + b, x) == a + b
    decreases |a|
  {
    if a == [] {
      assert a + [x] + b == [x] + b;
    } else {
      var t := a[1..] + [x] + b;
      assert a + [x] + b == [a[0]] + t;
      RemoveFirstCons(a[0], t, x);
      NotInTail(a, x);
      RemoveFirstSplit(a[1..], x, b);
      HeadSplit(a, b);
    }
  }

  /** A non-empty list joined to another is its head before its tail joined to the other. */
  lemma HeadSplit<T>(a: seq<T>, b: seq<T>)
    requires |a| > 0
    ensures a + b == [a[0]] + (a[1..] + b)
  {
    assert a == [a[0]] + a[1..];
  }

  /** A leading symbol other than x is kept in front. */
  lemma RemoveFirstCons(y: Symbol, t: seq<Symbol>, x: Symbol)
    requires y != x
    ensures RemoveFirst([y] + t, x) == [y] + RemoveFirst(t, x)
  {
    assert ([y] + t)[1..] == t;
  }

  /** A symbol missing from a list is missing from its tail. */
  lemma NotInTail(a: seq<Symbol>, x: Symbol)
    requires |a| > 0 && x !in a
    ensures x !in a[1..]
  {
    assert a == [a[0]] + a[1..];
  }

  /** Symbols appended after the first copy of x do not change which copy goes. */
  lemma {:induction false} RemoveFirstAppend(s: seq<Symbol>, x: Symbol, t: seq<Symbol>)
    requires x in s
    ensures RemoveFirst(s + t, x) == RemoveFirst(s, x) + t
    decreases |s|
  {
    assert (s + t)[0] == s[0];
    if s[0] == x {
      assert (s + t)[1..] == s[1..] + t;
    } else {
      assert s == [s[0]] + s[1..];
      assert (s + t)[1..] == s[1..] + t;
      RemoveFirstAppend(s[1..], x, t);
    }
  }

  /** What remains: the symbols of s, every one of them except the first x. */
  lemma {:induction false} RemoveFirstMembers(s: seq<Symbol>, x: Symbol)
    ensures forall y :: y in RemoveFirst(s, x) ==> y in s
    ensures forall y :: y in s && y != x ==> y in RemoveFirst(s, x)
    decreases |s|
  {
    if s != [] {
      assert s == [s[0]] + s[1..];
      RemoveFirstMembers(s[1..], x);
    }
  }

  /** Exactly one copy of x goes, and every other symbol keeps its count. */
  lemma {:induction false} RemoveFirstCounts(s: seq<Symbol>, x: Symbol)
    requires x in s
    ensures multiset(RemoveFirst(s, x)) == multiset(s) - multiset{x}
    decreases |s|
  {
    assert s == [s[0]] + s[1..];
    if s[0] != x {
      RemoveFirstCounts(s[1..], x);
    }
  }

  /** A symbol appended twice survives one removal. */
  lemma RemoveFirstOfTwo(s: seq<Symbol>, x: Symbol)
    requires multiset(s)[x] >= 2
    ensures x in RemoveFirst(s, x)
  {
    RemoveFirstCounts(s, x);
    var r := RemoveFirst(s, x);
    var m: multiset<Symbol> := multiset(r);
    assert m[x] >= 1;
  }

  // ---------------------------------------------------------------------
  // `join`

  /** `'|'.join(xs)` */
  function Bar(xs: seq<Symbol>): Text
  {
    if xs == [] then []
    else if |xs| == 1 then xs[0]
    else xs[0] + "|" + Bar(xs[1..])
  }

  /** `join(listed, *excluded)`: `(?:` + the kept members joined by `|` + `)`. */
  function Join(listed: seq<Symbol>, excluded: seq<Symbol>): (g: Text)
    ensures |g| >= 4 && g[..3] == "(?:" && g[|g| - 1] == ')'
  {
    "(?:" + Bar(Kept(listed, excluded)) + ")"
  }

  /** The first position of x in s. */
  function IndexOf<T(==)>(s: seq<T>, x: T): (i: nat)
    requires x in s
    ensures i < |s| && s[i] == x && x !in s[..i]
  {
    if s[0] == x then 0
    else
      var i := IndexOf(s[1..], x) + 1;
      assert s[..i] == [s[0]] + s[1..][..i - 1];
      i
  }

  /** The first x in a + [x] + b is the one after a, when a holds none. */
  lemma {:induction false} IndexOfAfter<T>(a: seq<T>, x: T, b: seq<T>)
    requires x !in a
    ensures IndexOf(a + [x] + b, x) == |a|
    decreases |a|
  {
    var s := a + [x] + b;
    if a != [] {
      assert s[0] == a[0] && s[0] != x;
      assert s[1..] == a[1..] + [x] + b;
      IndexOfAfter(a[1..], x, b);
    }
  }

  /** Cuts a text at every `|`. */
  function SplitBar(t: Text): (parts: seq<Text>)
    ensures |parts| >= 1
    decreases |t|
  {
    if '|' !in t then [t]
    else
      var i := IndexOf(t, '|');
      [t[..i]] + SplitBar(t[i + 1..])
  }

  /** The branches of a group `(?:b1|b2|...)`, read back from the pattern text. */
  function Alternatives(g: Text): seq<Text>
    requires |g| >= 4
  {
    SplitBar(g[3..|g| - 1])
  }

  /** Cutting at the first `|` splits off the text before it. */
  lemma SplitBarAt(a: Text, b: Text)
    requires '|' !in a
    ensures SplitBar(a + "|" + b) == [a] + SplitBar(b)
  {
    var t := a + "|" + b;
    assert t == a + ['|'] + b;
    assert '|' in t by {
      assert t[|a|] == '|';
    }
    IndexOfAfter(a, '|', b);
    assert t[..|a|] == a;
    assert t[|a| + 1..] == b;
  }

  lemma {:induction false} SplitBarOfBar(xs: seq<Symbol>)
    requires xs != [] && AllPlain(xs)
    ensures SplitBar(Bar(xs)) == xs
    decreases |xs|
  {
    assert '|' !in xs[0] by {
      assert Plain(xs[0]);
    }
    if |xs| == 1 {
      assert SplitBar(xs[0]) == [xs[0]];
    } else {
      assert Bar(xs) == xs[0] + "|" + Bar(xs[1..]);
      SplitBarAt(xs[0], Bar(xs[1..]));
      assert AllPlain(xs[1..]) by {
        forall k | 0 <= k < |xs[1..]|
          ensures Plain(xs[1..][k])
        {
          assert xs[1..][k] == xs[k + 1];
        }
      }
      SplitBarOfBar(xs[1..]);
      assert xs == [xs[0]] + xs[1..];
    }
  }

  /** The branches of a group: its members, or the single empty branch of "(?:)". */
  function Group(members: seq<Symbol>): (g: seq<Text>)
    ensures members != [] ==> g == members
    ensures members == [] ==> g == [""]
  {
    if members == [] then [""] else members
  }

  /**
   * The group `join` renders has exactly the kept members as its branches,
   * in order and with duplicates; when every member is excluded the group is
   * "(?:)", whose one branch is empty.
   */
  lemma JoinAlternatives(listed: seq<Symbol>, excluded: seq<Symbol>)
    requires AllPlain(listed)
    ensures Alternatives(Join(listed, excluded)) == Group(Kept(listed, excluded))
  {
    var g := Join(listed, excluded);
    var kept := Kept(listed, excluded);
    KeptMembers(listed, excluded);
    assert g[3..|g| - 1] == Bar(kept);
    if kept != [] {
      SplitBarOfBar(kept);
    } else {
      assert Bar(kept) == "";
      assert SplitBar("") == [""];
    }
  }

  /** An excluded symbol is never a branch of the group. */
  lemma JoinExcludes(listed: seq<Symbol>, excluded: seq<Symbol>, x: Symbol)
    requires AllPlain(listed) && x in excluded
    ensures x !in Alternatives(Join(listed, excluded))
  {
    JoinAlternatives(listed, excluded);
    KeptMembers(listed, excluded);
  }

  /** Excluding every member leaves the empty group. */
  lemma JoinAllExcluded(listed: seq<Symbol>, excluded: seq<Symbol>)
    requires forall k :: 0 <= k < |listed| ==> listed[k] in excluded
    ensures Join(listed, excluded) == "(?:)"
  {
    KeptAllExcluded(listed, excluded);
  }

  lemma {:induction false} KeptAllExcluded(listed: seq<Symbol>, excluded: seq<Symbol>)
    requires forall k :: 0 <= k < |listed| ==> listed[k] in excluded
    ensures Kept(listed, excluded) == []
    decreases |listed|
  {
    if listed != [] {
      assert listed[0] in excluded;
      KeptAllExcluded(listed[1..], excluded);
    }
  }

  /** A concrete group, with multi-character members and an exclusion. */
  lemma JoinExample()
    ensures Join(["k", "kʷ", "r", "s"], ["r"]) == "(?:k|kʷ|s)"
  {
    var kept := Kept(["k", "kʷ", "r", "s"], ["r"]);
    assert Kept(["s"], ["r"]) == ["s"];
    assert Kept(["r", "s"], ["r"]) == ["s"];
    assert Kept(["kʷ", "r", "s"], ["r"]) == ["kʷ", "s"];
    assert kept == ["k", "kʷ", "s"];
    assert Bar(["s"]) == "s";
    assert Bar(["kʷ", "s"]) == "kʷ|s";
    assert Bar(kept) == "k|kʷ|s";
  }

  lemma {:induction false} KeptNothingExcluded(listed: seq<Symbol>, excluded: seq<Symbol>)
    requires forall k :: 0 <= k < |listed| ==> listed[k] !in excluded
    ensures Kept(listed, excluded) == listed
    decreases |listed|
  {
    if listed != [] {
      KeptNothingExcluded(listed[1..], excluded);
      assert listed == [listed[0]] + listed[1..];
    }
  }

  // ---------------------------------------------------------------------
  // The lists themselves, updated in place by the stages.

  class SymbolInventory {
    var consonants: seq<Symbol>
    var vowels: seq<Symbol>

    /** The module starts with both lists empty. */
    constructor ()
      ensures consonants == [] && vowels == []
    {
      consonants := [];
      vowels := [];
    }

    /** `reset`: both lists go back to the Latin inventory, whatever they held. */
    method Reset()
      modifies this
      ensures consonants == LatinConsonants && vowels == LatinVowels
    {
      consonants := LatinConsonants;
      vowels := LatinVowels;
    }

    /** `extend`: the symbols go to the end of the list, in order. */
    method Extend(c: SymbolClass, syms: seq<Symbol>)
      modifies this
      ensures c == Consonants ==> consonants == old(consonants) + syms && vowels == old(vowels)
      ensures c == Vowels ==> vowels == old(vowels) + syms && consonants == old(consonants)
    {
      match c
      case Consonants => consonants := consonants + syms;
      case Vowels => vowels := vowels + syms;
    }

    /** `append` */
    method Append(c: SymbolClass, sym: Symbol)
      modifies this
      ensures c == Consonants ==> consonants == old(consonants) + [sym] && vowels == old(vowels)
      ensures c == Vowels ==> vowels == old(vowels) + [sym] && consonants == old(consonants)
    {
      Extend(c, [sym]);
    }

    /**
     * `remove`: drops the first copy of the symbol. `found` is false exactly
     * when Python raises ValueError; the list is then unchanged.
     */
    method Remove(c: SymbolClass, sym: Symbol) returns (found: bool)
      modifies this
      ensures c == Consonants ==>
        (found <==> sym in old(consonants)) && consonants == RemoveFirst(old(consonants), sym) && vowels == old(vowels)
      ensures c == Vowels ==>
        (found <==> sym in old(vowels)) && vowels == RemoveFirst(old(vowels), sym) && consonants == old(consonants)
    {
      match c
      case Consonants =>
        found := sym in consonants;
        consonants := RemoveFirst(consonants, sym);
      case Vowels =>
        found := sym in vowels;
        vowels := RemoveFirst(vowels, sym);
    }

    /** `consonants = [i for i in consonants if i not in drop]`: every copy of each dropped symbol goes. */
    method Filter(c: SymbolClass, drop: seq<Symbol>)
      modifies this
      ensures c == Consonants ==> consonants == Kept(old(consonants), drop) && vowels == old(vowels)
      ensures c == Vowels ==> vowels == Kept(old(vowels), drop) && consonants == old(consonants)
    {
      match c
      case Consonants => consonants := Kept(consonants, drop);
      case Vowels => vowels := Kept(vowels, drop);
    }
  }
}
