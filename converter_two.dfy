/**
 * The second converter, french-converter-2.py: eight stages from Latin to
 * Modern French over IPA symbols, each a straight-line sequence of `re.sub`
 * calls on the word. A stage first calls the stage before it (the first one
 * calls `setup`) and then runs its own rewrites, in order, on that result.
 *
 * Rules of the shapes in module Rewrite are applied exactly. The rest (those
 * with repetition, optional groups inside lookarounds, or back-references
 * that reorder the match) go, with their pattern text as written, to the
 * regular-expression engine `rx`, a parameter.
 */
module ConverterTwo {
  import opened Results
  import opened Rewrite
  import opened Gemination

  /** `x?` followed by one of the alternatives, with x first as the greedy `?` tries it. */
  function Optional(x: Text, alts: seq<Text>): seq<Text>
  {
    Product([x, ""], alts)
  }

  /** `(?!:)`: the vowel is short. */
  const Short: Look := Not(Ahead([":"]))

  /** `(?=ñ)`: the vowel is nasal. */
  const Nasal: Look := Ahead(["ñ"])

  // ---------------------------------------------------------------------
  // setup: the Latin spelling turned into the converter's symbols.

  /** `gu(?=!?[aeiouy])` → G */
  function LabialisedG(): Rule
  {
    Ctx(Always, ["gu"], Ahead(Optional("!", Chars("aeiouy"))), "G")
  }

  /** `(?<=[aeiouy:])i` → j */
  function GlideAfterVowel(): Rule
  {
    Ctx(Behind(Chars("aeiouy:")), ["i"], Always, "j")
  }

  /** `(!?)i(?=[aeiouy!])` → `j\1`: the stress mark moves past the glide. */
  function GlideBeforeVowel(): Rule
  {
    [Alt(Always, "!i", Ahead(Chars("aeiouy!")), "j!"), Alt(Always, "i", Ahead(Chars("aeiouy!")), "j")]
  }

  /** `(?<=[aeiouy:])u(!?)(?=[aeiouy!])` → `w`: the captured stress mark is dropped. */
  function GlideUAsWritten(): Rule
  {
    var pre := Behind(Chars("aeiouy:"));
    [Alt(pre, "u!", Ahead(Chars("aeiouy!")), "w"), Alt(pre, "u", Ahead(Chars("aeiouy!")), "w")]
  }

  /** `(?<=[aeiouy:])u(!?)(?=[aeiouy!])` → `w\1`: the stress mark is kept, as the i rule keeps it. */
  function GlideU(): Rule
  {
    var pre := Behind(Chars("aeiouy:"));
    [Alt(pre, "u!", Ahead(Chars("aeiouy!")), "w!"), Alt(pre, "u", Ahead(Chars("aeiouy!")), "w")]
  }

  /** The rules of `setup` in order, with the given rule for u between vowels. */
  function SetupRules(glideU: Rule): seq<Rule>
  {
    [Lit("c", "k"), Lit("qu", "K"), LabialisedG(), Lit("x", "ks"), Lit("ae", "aj"), Lit("oe", "oj"),
     GlideAfterVowel(), GlideBeforeVowel(), glideU, Lit("au", "aw")]
  }

  /** `setup` as written, with line 77 dropping the stress mark after a u glide. */
  function SetupAsWritten(word: Text): (r: Text)
    ensures 'c' !in r && 'x' !in r
  {
    SetupSpelling(GlideUAsWritten(), word);
    Chain(SetupRules(GlideUAsWritten()), 0, word)
  }

  /** `setup` with line 77 corrected to `w\1`. */
  function Setup(word: Text): (r: Text)
    ensures 'c' !in r && 'x' !in r
    ensures multiset(r)['!'] == multiset(word)['!']
  {
    SetupSpelling(GlideU(), word);
    SetupKeepsStress(word);
    Chain(SetupRules(GlideU()), 0, word)
  }

  /** Which rules of `setup` rewrite, and which write, 'c' and 'x', whichever rule for u between vowels it uses. */
  lemma SetupRulesWrite(glideU: Rule)
    requires glideU == GlideUAsWritten() || glideU == GlideU()
    ensures Rewrites(SetupRules(glideU)[0], 'c') && Rewrites(SetupRules(glideU)[3], 'x')
    ensures forall j :: 0 <= j < |SetupRules(glideU)| ==> !Writes(SetupRules(glideU)[j], 'c')
    ensures forall j :: 3 <= j < |SetupRules(glideU)| ==> !Writes(SetupRules(glideU)[j], 'x')
  {
    var rules: seq<Rule> := SetupRules(glideU);
    assert rules[0][0].pat == ['c'] && rules[3][0].pat == ['x'];
  }

  /**
   * After the rules of `setup`, as written or corrected, the word holds no 'c'
   * and no 'x': 'c' becomes 'k' before 'qu' is looked at, 'x' becomes "ks",
   * and no later rule writes either.
   */
  lemma SetupSpelling(glideU: Rule, word: Text)
    requires glideU == GlideUAsWritten() || glideU == GlideU()
    ensures 'c' !in Chain(SetupRules(glideU), 0, word) && 'x' !in Chain(SetupRules(glideU), 0, word)
  {
    SetupRulesWrite(glideU);
    ChainRemoves(SetupRules(glideU), 0, 0, word, 'c');
    ChainRemoves(SetupRules(glideU), 0, 3, word, 'x');
  }

  // Whether each setup rule is balanced for '!' is split over three lemmas
  // so that each stays within the solver's budget.

  /** Rules 0-3 (lines 67-72) neither match nor write a stress mark, in both versions. */
  lemma SetupRulesBalancedFirst(glideU: Rule)
    ensures forall j :: 0 <= j < 4 ==> Balanced(SetupRules(glideU)[j], '!')
  {
  }

  /** Rules 4-6 (lines 73-75) write back every stress mark they consume, in both versions. */
  lemma SetupRulesBalancedMiddle(glideU: Rule)
    ensures forall j :: 4 <= j < 7 ==> Balanced(SetupRules(glideU)[j], '!')
  {
  }

  /** With line 77 corrected, rules 7-9 (lines 76-78) write back every stress mark they consume. */
  lemma SetupRulesBalancedLast()
    ensures forall j :: 7 <= j < 10 ==> Balanced(SetupRules(GlideU())[j], '!')
  {
  }

  /** With line 77 corrected, the rules of `setup` keep every stress mark: the glides only move them. */
  lemma SetupKeepsStress(word: Text)
    ensures multiset(Chain(SetupRules(GlideU()), 0, word))['!'] == multiset(word)['!']
  {
    SetupRulesBalancedFirst(GlideU());
    SetupRulesBalancedMiddle(GlideU());
    SetupRulesBalancedLast();
    ChainPreservesCount(SetupRules(GlideU()), 0, word, '!');
  }

  /** A rule for u between vowels, with 'e' among the vowels on either side. */
  predicate GlideShape(rule: Rule, pre: seq<Text>, post: seq<Text>, r1: Text, r2: Text)
  {
    |pre| > 1 && pre[1] == "e" && |post| > 1 && post[1] == "e" &&
    rule == [Alt(Behind(pre), "u!", Ahead(post), r1), Alt(Behind(pre), "u", Ahead(post), r2)]
  }

  /** Neither branch matches at the first or the last letter of "eu!e". */
  lemma GlideQuiet(rule: Rule, pre: seq<Text>, post: seq<Text>, r1: Text, r2: Text)
    requires GlideShape(rule, pre, post, r1, r2)
    ensures FirstFiring(rule, "eu!e", 0, 0).None? && FirstFiring(rule, "eu!e", 3, 0).None?
  {
    var s := "eu!e";
    assert s[0..1] == "e" && s[0..2] == "eu" && s[3..4] == "e";
    assert !StartsAt(s, "u!", 0) && !StartsAt(s, "u", 0);
    assert !StartsAt(s, "u!", 3) && !StartsAt(s, "u", 3);
  }

  /** The first branch matches "u!" between the two e's. */
  lemma GlideFires(rule: Rule, pre: seq<Text>, post: seq<Text>, r1: Text, r2: Text)
    requires GlideShape(rule, pre, post, r1, r2)
    ensures FirstFiring(rule, "eu!e", 1, 0) == Some(0)
  {
    var s := "eu!e";
    assert s[0..1] == "e" && s[1..3] == "u!" && s[3..4] == "e";
    assert EndsAt(s, pre[1], 1) && StartsAt(s, post[1], 3);
    assert Fires(rule[0], s, 1);
  }

  /** Either rule for u between vowels, on "eu!e": the glide is followed by the stress mark, and the first branch fires. */
  lemma GlideOverStress(rule: Rule, pre: seq<Text>, post: seq<Text>, r1: Text, r2: Text)
    requires GlideShape(rule, pre, post, r1, r2)
    ensures Apply(rule, "eu!e") == "e" + r1 + "e"
  {
    var s := "eu!e";
    GlideQuiet(rule, pre, post, r1, r2);
    GlideFires(rule, pre, post, r1, r2);
    assert ApplyFrom(rule, s, 4) == [];
    assert ApplyFrom(rule, s, 3) == "e" + ApplyFrom(rule, s, 4);
    assert ApplyFrom(rule, s, 1) == r1 + ApplyFrom(rule, s, 3);
    assert ApplyFrom(rule, s, 0) == "e" + ApplyFrom(rule, s, 1);
  }

  /** Every rule of `setup` but the one for u between vowels leaves alone a word without c, q, g, x, a, o and i. */
  lemma SetupRuleQuiet(glideU: Rule, j: nat, s: Text)
    requires j < 10 && j != 8
    requires forall c :: c in s ==> c !in "cqgxaoi"
    ensures Apply(SetupRules(glideU)[j], s) == s
  {
    var rules := SetupRules(glideU);
    if j == 0 {
      EndsAbsent(rules[0], s);
    } else if j == 1 {
      EndsAbsent(rules[1], s);
    } else if j == 2 {
      EndsAbsent(rules[2], s);
    } else if j == 3 {
      EndsAbsent(rules[3], s);
    } else if j == 4 {
      EndsAbsent(rules[4], s);
    } else if j == 5 {
      EndsAbsent(rules[5], s);
    } else if j == 6 {
      EndsAbsent(rules[6], s);
    } else if j == 7 {
      EndsAbsent(rules[7], s);
    } else {
      EndsAbsent(rules[9], s);
    }
  }

  /** When the word before and after the rule for u between vowels lacks c, q, g, x, a, o and i, only that rule changes it in `setup`. */
  lemma SetupFiresOnlyGlide(glideU: Rule, s: Text, t: Text)
    requires forall c :: c in s ==> c !in "cqgxaoi"
    requires forall c :: c in t ==> c !in "cqgxaoi"
    requires Apply(glideU, s) == t
    ensures Chain(SetupRules(glideU), 0, s) == t
  {
    var rules := SetupRules(glideU);
    forall j | 0 <= j < 8
      ensures Apply(rules[j], s) == s
    {
      SetupRuleQuiet(glideU, j, s);
    }
    ChainSkips(rules, 0, 8, s);
    SetupRuleQuiet(glideU, 9, t);
    assert Chain(rules, 10, t) == t;
    assert Chain(rules, 9, t) == Chain(rules, 10, Apply(rules[9], t));
    assert Chain(rules, 8, s) == Chain(rules, 9, Apply(rules[8], s));
  }

  /** As written, the rule for u between vowels loses the stress mark after the glide: "eu!e" becomes "ewe", not "ew!e". */
  lemma GlideUAsWrittenDropsStress()
    ensures Apply(GlideUAsWritten(), "eu!e") == "ewe"
  {
    var pre, post := Chars("aeiouy:"), Chars("aeiouy!");
    assert pre[1] == "e" && post[1] == "e";
    GlideOverStress(GlideUAsWritten(), pre, post, "w", "w");
    assert "e" + "w" + "e" == "ewe";
  }

  /** As written, `setup` as a whole turns "eu!e" into "ewe": the stress mark is lost. */
  lemma SetupAsWrittenDropsStress(w: Text)
    requires w == "eu!e"
    ensures SetupAsWritten(w) == "ewe"
  {
    SetupRulesAsWrittenDropStress(w);
    assert SetupAsWritten(w) == Chain(SetupRules(GlideUAsWritten()), 0, w);
  }

  /** The rules of `setup` as written on "eu!e": only the rule for u between vowels changes the word, and it drops the stress mark. */
  lemma SetupRulesAsWrittenDropStress(w: Text)
    requires w == "eu!e"
    ensures Chain(SetupRules(GlideUAsWritten()), 0, w) == "ewe"
  {
    var t := "ewe";
    assert forall c :: c in t ==> c !in "cqgxaoi" by {
      assert forall c :: c in t ==> c == 'e' || c == 'w';
    }
    assert forall c :: c in w ==> c !in "cqgxaoi" by {
      assert forall c :: c in w ==> c == 'e' || c == 'u' || c == '!';
    }
    GlideUAsWrittenDropsStress();
    SetupFiresOnlyGlide(GlideUAsWritten(), w, t);
  }

  /** As written, the rule for u between vowels consumes a stress mark it does not write back. */
  lemma GlideUAsWrittenUnbalanced()
    ensures !Balanced(GlideUAsWritten(), '!')
  {
    var a := GlideUAsWritten()[0];
    assert multiset(a.pat)['!'] == 1 by { assert a.pat == ['u'] + ['!']; }
    assert multiset(a.rep)['!'] == 0 by { assert a.rep == ['w']; }
  }

  /** With the stress mark carried over, as the rule for i carries it, "eu!e" becomes "ew!e". */
  lemma GlideUCarriesStress()
    ensures Apply(GlideU(), "eu!e") == "ew!e"
  {
    var pre, post := Chars("aeiouy:"), Chars("aeiouy!");
    assert pre[1] == "e" && post[1] == "e";
    GlideOverStress(GlideU(), pre, post, "w!", "w");
    assert "e" + "w!" + "e" == "ew!e";
  }

  /** The corrected `setup` as a whole turns "eu!e" into "ew!e": the stress mark stays. */
  lemma SetupCarriesStress(w: Text)
    requires w == "eu!e"
    ensures Setup(w) == "ew!e"
  {
    SetupRulesCarryStress(w);
    assert Setup(w) == Chain(SetupRules(GlideU()), 0, w);
  }

  /** The corrected rules of `setup` on "eu!e": only the rule for u between vowels changes the word. */
  lemma SetupRulesCarryStress(w: Text)
    requires w == "eu!e"
    ensures Chain(SetupRules(GlideU()), 0, w) == "ew!e"
  {
    var t := "ew!e";
    assert forall c :: c in t ==> c !in "cqgxaoi" by {
      assert forall c :: c in t ==> c == 'e' || c == 'w' || c == '!';
    }
    assert forall c :: c in w ==> c !in "cqgxaoi" by {
      assert forall c :: c in w ==> c == 'e' || c == 'u' || c == '!';
    }
    GlideUCarriesStress();
    SetupFiresOnlyGlide(GlideU(), w, t);
  }

  // ---------------------------------------------------------------------
  // The stages: each runs a list of steps, in order, on the word.

  /** One `re.sub` of a stage: a rule of a modelled shape, a call to the engine, or the loss of gemination. */
  datatype Step =
    | Shape(rule: Rule)
    | Regex(pattern: Text, repl: Text)
    | Collapse(cc: CharClass)
    | Block(rules: seq<Rule>)

  function Do(step: Step, rx: Engine, w: Text): Text
  {
    match step
    case Shape(rule) => Apply(rule, w)
    case Regex(pattern, repl) => rx(pattern, repl, w)
    case Collapse(cc) => CollapsePairs(w, cc)
    case Block(rules) => Chain(rules, 0, w)
  }

  /** The steps applied in order, each to the output of the one before. */
  function Run(steps: seq<Step>, rx: Engine, w: Text): Text
    decreases |steps|
  {
    if steps == [] then w else Run(steps[1..], rx, Do(steps[0], rx, w))
  }

  /** Running two lists of steps one after the other is running their concatenation. */
  lemma {:induction false} RunConcat(a: seq<Step>, b: seq<Step>, rx: Engine, w: Text)
    ensures Run(a + b, rx, w) == Run(b, rx, Run(a, rx, w))
    decreases |a|
  {
    if a == [] {
      assert a + b == b;
    } else {
      assert (a + b)[1..] == a[1..] + b;
      RunConcat(a[1..], b, rx, Do(a[0], rx, w));
    }
  }

  /** A block of rules run after a list of steps is the chain of those rules on what the steps leave. */
  lemma RunBlock(a: seq<Step>, rules: seq<Rule>, rx: Engine, w: Text)
    ensures Run(a + [Block(rules)], rx, w) == Chain(rules, 0, Run(a, rx, w))
  {
    RunConcat(a, [Block(rules)], rx, w);
  }

  /** Each rule as a step. */
  function Shapes(rules: seq<Rule>): (steps: seq<Step>)
    ensures |steps| == |rules|
    ensures forall k :: 0 <= k < |rules| ==> steps[k] == Shape(rules[k])
  {
    seq(|rules|, k requires 0 <= k < |rules| => Shape(rules[k]))
  }

  /** Rules run as steps do what the chain of those rules does. */
  lemma {:induction false} RunShapes(rules: seq<Rule>, from: nat, rx: Engine, w: Text)
    requires from <= |rules|
    ensures Run(Shapes(rules)[from..], rx, w) == Chain(rules, from, w)
    decreases |rules| - from
  {
    if from < |rules| {
      assert Shapes(rules)[from..][1..] == Shapes(rules)[from + 1..];
      RunShapes(rules, from + 1, rx, Apply(rules[from], w));
    }
  }

  /** A literal one-character rule among the shapes removes that character when no rule from it on writes it. */
  lemma ShapesRemoveLit(rules: seq<Rule>, k: nat, c: char, r: Text, reps: seq<Text>, rx: Engine, w: Text)
    requires k < |rules| && rules[k] == Lit([c], r)
    requires WritesFrom(rules, k, reps) && forall i :: 0 <= i < |reps| ==> c !in reps[i]
    ensures c !in Run(Shapes(rules), rx, w)
  {
    RunShapes(rules, 0, rx, w);
    assert Shapes(rules)[0..] == Shapes(rules);
    ChainRemovesLit(rules, 0, k, w, c, r, reps);
  }

  /** Steps that end by deleting a character leave none of it, whatever came before. */
  lemma ThenDropRemoves(steps: seq<Step>, c: char, rx: Engine, w: Text)
    ensures c !in Run(steps + [Shape(Lit([c], ""))], rx, w)
  {
    var v := Run(steps, rx, w);
    RunConcat(steps, [Shape(Lit([c], ""))], rx, w);
    assert Run([Shape(Lit([c], ""))], rx, v) == Apply(Lit([c], ""), v);
    LitRewrites(c, "");
    Removes(Lit([c], ""), v, c);
  }


  /** `(?=r?ʲ?V)` and the like: one of the optional prefixes, then one of the vowels. */
  function BeforeVowel(optional: seq<Text>, vowels: Text): seq<Text>
  {
    Product(optional, Chars(vowels))
  }

  // ---------------------------------------------------------------------
  // The stages in order. Each `to_…` function calls the one before it, so
  // every stage is `setup` followed by the steps of all stages up to it.

  /** The steps from `to_proto_western_romance` through `to_proto_gallo_ibero_romance`. */
  function ThroughProtoGalloIberoRomance(): seq<Step>
  {
    ProtoWesternRomanceSteps() + ProtoGalloIberoRomanceSteps()
  }

  /** The steps from `to_proto_western_romance` through `to_early_old_french`. */
  function ThroughEarlyOldFrench(): seq<Step>
  {
    ThroughProtoGalloIberoRomance() + EarlyOldFrenchSteps()
  }

  /** The steps from `to_proto_western_romance` through `to_old_french`. */
  function ThroughOldFrench(): seq<Step>
  {
    ThroughEarlyOldFrench() + OldFrenchSteps()
  }

  /** The steps from `to_proto_western_romance` through `to_late_old_french`. */
  function ThroughLateOldFrench(): seq<Step>
  {
    ThroughOldFrench() + LateOldFrenchSteps()
  }

  /** The steps from `to_proto_western_romance` through `to_middle_french`. */
  function ThroughMiddleFrench(): seq<Step>
  {
    ThroughLateOldFrench() + [Block(MiddleFrenchRules())]
  }

  /** The steps from `to_proto_western_romance` through `to_early_modern_french`. */
  function ThroughEarlyModernFrench(): seq<Step>
  {
    ThroughMiddleFrench() + EarlyModernFrenchSteps()
  }

  // ---------------------------------------------------------------------
  // Proto-Western-Romance.

  /** `to_proto_western_romance`: `setup`, then this stage's own rules. */
  function ToProtoWesternRomance(word: Text, rx: Engine): Text
  {
    Run(ProtoWesternRomanceSteps(), rx, SetupAsWritten(word))
  }

  /** The rules of `to_proto_western_romance` itself, in order, block by block. */
  function ProtoWesternRomanceSteps(): seq<Step>
  {
    [Shape(ProstheticI())] + Shapes(LatinVowels()) + Shapes(UnstressedOpenMid())
    + [Regex("([bdfgGhjkKlmnprstvwz!]*[aeiouɛɔ][bdfgGhjkKlmnprstvwz!]+[aeiouɛɔ])[mn]$", "\\1")]
    + Shapes(ConsonantLosses())
    + [Regex("([bdfgjklmnprstvwz!]*[aeiouɛɔ][kg])[aeiouɛɔ]([rl][!aeiouɛɔ])", "\\1\\2")]
    + Shapes(Yod())
  }

  /** Line 90: an i before initial s and a consonant. */
  function ProstheticI(): Rule
  {
    Captured(AtStart, "s", Chars("bdfgGhkKlmnprstvz"), "", Always, "is", "")
  }

  /** Lines 94-100: vowel length becomes vowel quality. */
  function LatinVowels(): (rules: seq<Rule>)
    ensures |rules| == 7
  {
    [Lit("a:", "a"),
     [Alt(Always, "aj", Always, "ɛ"), Alt(Always, "e", Short, "ɛ")],
     [Alt(Always, "oj", Always, "e"), Alt(Always, "e:", Always, "e"),
      Alt(Always, "i", Short, "e"), Alt(Always, "y", Short, "e")],
     Lits(["i:", "y:"], "i"),
     Ctx(Always, ["o"], Short, "ɔ"),
     [Alt(Always, "o:", Always, "o"), Alt(Always, "u", Short, "o")],
     Lit("u:", "u")]
  }

  /** Lines 108-109: open-mid vowels close when unstressed. */
  function UnstressedOpenMid(): (rules: seq<Rule>)
    ensures |rules| == 2
  {
    [Ctx(Not(Behind(["!"])), ["ɛ"], Always, "e"),
     Ctx(Not(Behind(["!"])), ["ɔ"], Always, "o")]
  }

  /** Lines 120-140: h is lost but initially, ns and rs simplify, final r moves before its vowel. */
  function ConsonantLosses(): (rules: seq<Rule>)
    ensures |rules| == 4
  {
    [Ctx(Not(AtStart), ["h"], Always, ""),
     Lit("ns", "s"),
     Ctx(Not(Behind(["o"])), ["rs"], Always, "ss"),
     Captured(Always, "", Optional("!", Chars("eoɛɔ")), "r", AtEnd, "r", "")]
  }

  /** Lines 155-159: e and i before a vowel become j, which palatalises the consonant before it. */
  function Yod(): (rules: seq<Rule>)
    ensures |rules| == 5
  {
    var front := Ahead(Optional("!", Chars("eiɛ")));
    [Ctx(Always, ["!e", "!i", "!ɛ"], Ahead(Chars("aeiouɛɔ!")), "j!")
     + Ctx(Always, ["e", "i", "ɛ"], Ahead(Chars("aeiouɛɔ!")), "j"),
     Ctx(Behind(Chars("bdfgjklmnprstvwz")), ["j"], Always, "ʲ"),
     Ctx(And(Not(AtStart), Not(Behind(["k"]))), ["kʲ"], Always, "kkʲ"),
     [Alt(Always, "g", front, "gʲ"), Alt(Always, "k", front, "kʲ")],
     Lits(["dʲ", "gʲ"], "J")]
  }

  // ---------------------------------------------------------------------
  // Proto-Gallo-Ibero-Romance.

  /** `to_proto_gallo_ibero_romance`: the stage before it, then this stage's own rules. */
  function ToProtoGalloIberoRomance(word: Text, rx: Engine): (r: Text)
    ensures r == Run(ThroughProtoGalloIberoRomance(), rx, SetupAsWritten(word))
  {
    RunConcat(ProtoWesternRomanceSteps(), ProtoGalloIberoRomanceSteps(), rx, SetupAsWritten(word));
    Run(ProtoGalloIberoRomanceSteps(), rx, ToProtoWesternRomance(word, rx))
  }

  /** The rules of `to_proto_gallo_ibero_romance` itself, in order, block by block. */
  function ProtoGalloIberoRomanceSteps(): seq<Step>
  {
    Shapes(Assibilation())
    + [Regex("!ɛ(?=j|[bdfgGjJkKlmnprstvwz]?ʲ?[aeiouɛɔ]|[nm]$)(?![bdfgGkKlprstvwz]$)", "j!ɛ"),
       Regex("!ɔ(?=j|[bdfgGjJkKlmnprstvwz]?ʲ?[aeiouɛɔ])(?![bdfgGkKlmnprstvwz]$)", "w!ɔ"),
       Regex("([aeiouɛɔ][bdfgGjJkKlmnprstvwzðɣɲʎʲ]*)[eiouɛɔ](?=[bdfgGjJkKlmnprstvwzðɣɲʎʲ]*![aeiouɛɔ])", "\\1"),
       Regex("([aeiouɛɔ][bdfgGjJkKlmnprstvwzðɣɲʎʲ]*)a(?=[bdfgGjJkKlmnprstvwzðɣɲʎʲ]![aeiouɛɔ])", "\\1ǝ"),
       Regex("(![aeiouɛɔ][bdfgGjJkKlmnprstvwzðɣɲʎʲ]*)[aeiouɛɔ](?=[bdfgGjJkKlmnprstvwzðɣɲʎʲ]*[aeiouɛɔ])", "\\1")]
    + [Shape(NasalGeminate())]
    + Shapes(FirstLenition())
    + Shapes(PalatalSonorants())
  }

  /** Lines 173-178: palatalised k and t become affricates, and k before t or s a j. */
  function Assibilation(): (rules: seq<Rule>)
    ensures |rules| == 3
  {
    [Lit("kkʲ", "ttsʲ"),
     Lits(["kʲ", "tʲ"], "tsʲ"),
     Ctx(Always, ["k"], Ahead(Chars("ts")), "j")]
  }

  /** Line 223: mn becomes mm. */
  function NasalGeminate(): Rule
  {
    Lit("mn", "mm")
  }

  /** Lines 259-262: n and l next to a j or palatalised become ɲ and ʎ. */
  function PalatalSonorants(): (rules: seq<Rule>)
    ensures |rules| == 4
  {
    [Lits(["jn", "nj", "nJ", "nʲ"], "ɲ"),
     Lit("nɲ", "ɲɲ"),
     Lits(["jl", "lʲ"], "ʎ"),
     Lit("lʎ", "ʎʎ")]
  }

  /** The first lenition: voiced stops and voiceless fricatives become voiced fricatives, voiceless stops voiced, between vowels. */
  function FirstLenition(): (rules: seq<Rule>)
    ensures |rules| == 12
  {
    var after := Behind(Chars("aeiouɛɔǝw"));
    var next := "aeiouɛɔǝjw!";
    var voicing := Ahead(BeforeVowel(Optional("r", ["ʲ", ""]), next));
    [Ctx(after, ["b", "f"], voicing, "v"),
     Ctx(after, ["p"], Ahead(BeforeVowel(Product(["l", "r", ""], ["ʲ", ""]), next)), "b"),
     Ctx(after, ["d"], Or(voicing, AtEnd), "ð"),
     Ctx(after, ["t"], Or(voicing, AtEnd), "d"),
     Ctx(after, ["s"], Ahead(BeforeVowel(["ʲ", ""], next)), "z"),
     Ctx(after, ["g"], Ahead(Chars(next)), "ɣ"),
     Ctx(after, ["g"], Ahead(Chars("rln")), "j"),
     Ctx(Behind(Chars("aeiǝ")), ["ɣ"], Ahead(Optional("!", Chars("aǝ"))), "j"),
     Ctx(after, ["k"], voicing, "g"),
     Ctx(after, ["K"], voicing, "G"),
     Ctx(Always, ["k"], Ahead(["l"]), "j"),
     Ctx(after, ["tsʲ"], Ahead(Chars(next)), "dzʲ")]
  }

  // ---------------------------------------------------------------------
  // Early Old French.

  /** `to_early_old_french`: the stage before it, then this stage's own rules. */
  function ToEarlyOldFrench(word: Text, rx: Engine): (r: Text)
    ensures r == Run(ThroughEarlyOldFrench(), rx, SetupAsWritten(word))
  {
    RunConcat(ThroughProtoGalloIberoRomance(), EarlyOldFrenchSteps(), rx, SetupAsWritten(word));
    Run(EarlyOldFrenchSteps(), rx, ToProtoGalloIberoRomance(word, rx))
  }

  /** The rules of `to_early_old_french` itself, in order, block by block. */
  function EarlyOldFrenchSteps(): seq<Step>
  {
    Shapes(Onset()) + PalatalRelease() + Shapes(VelarPalatalization()) + EarlyOldFrenchVowels()
    + Shapes(SecondLenition()) + EarlyOldFrenchConsonants()
  }

  /** Lines 288-290: initial j and J after r become dʒ, the other J become j, and the kept h disappear. */
  function Onset(): (rules: seq<Rule>)
    ensures |rules| == 3
  {
    [[Alt(AtStart, "j", Always, "dʒ"), Alt(AtStart, "J", Always, "dʒ"), Alt(Behind(["r"]), "J", Always, "dʒ")],
     Lit("J", "j"),
     Lit("h", "")]
  }

  /** The J and h marks are gone once the onset rules have run, whatever the word. */
  lemma OnsetRemovesMarks(w: Text, rx: Engine)
    ensures 'J' !in Run(Shapes(Onset()), rx, w) && 'h' !in Run(Shapes(Onset()), rx, w)
  {
    ShapesRemoveLit(Onset(), 1, 'J', "j", ["j", ""], rx, w);
    ShapesRemoveLit(Onset(), 2, 'h', "", ["j", ""], rx, w);
  }

  /** Lines 304-326: a j spreads palatalisation, and palatalised consonants release a j. */
  function PalatalEjection(): seq<Step>
  {
    [Regex("j(?!!)([bdfgklmnprstvzðɣɲʎʒ]+)", "j\\1ʲ")]
    + Shapes(PalatalAffricates())
    + [Regex("(?<=tʃ|dʒ)(![ae])(?=([bdfgklmnprstvzðɣɲʎ]ʲ?|tʃ|dʒ|tsʲ|dzʲ|ssʲ)?[jw]?[aeiouɛɔǝ]|$)", "j\\1"),
       Regex("(!?)([aǝ])rʲ(?=[jw]?!?[aeiouɛɔǝ])", "j\\1\\2rʲ"),
       Regex("(?<=[aeiouɛɔǝ])([dfgkstzðɣ]ʲ|tsʲ|dzʲ|ssʲ)(?=[jw]?!?[aeiouɛɔǝ])", "j\\1"),
       Regex("(?<=ʲ)(![ae])(?=([bdfgklmnprstvzðɣɲʎ]ʲ?|tʃ|dʒ|tsʲ|dzʲ|ssʲ)?[aeiouɛɔǝ]|$)", "j\\1")]
  }

  /** Lines 308-310: palatalised p, b, v and m become affricates, except word-initially. */
  function PalatalAffricates(): (rules: seq<Rule>)
    ensures |rules| == 3
  {
    [Ctx(Not(AtStart), ["pʲ"], Always, "tʃ"),
     Ctx(Not(AtStart), ["bʲ", "vʲ"], Always, "dʒ"),
     Ctx(Not(AtStart), ["mʲ"], Always, "ndʒ")]
  }

  /** Line 327: the palatal marks dropped. */
  function DropPalatalMarks(): Rule
  {
    Lit("ʲ", "")
  }

  /** Lines 304-327: the palatal steps, then the marks ʲ dropped. */
  function PalatalRelease(): seq<Step>
  {
    PalatalEjection() + [Shape(DropPalatalMarks())]
  }

  /** Whatever the engine does in the steps before it, the last one leaves no palatal mark. */
  lemma PalatalReleaseRemovesMark(w: Text, rx: Engine)
    ensures 'ʲ' !in Run(PalatalRelease(), rx, w)
  {
    ThenDropRemoves(PalatalEjection(), 'ʲ', rx, w);
    assert DropPalatalMarks() == Lit(['ʲ'], "");
  }

  /** Lines 336-339: k and g before a become tʃ and dʒ, then K and G become plain k and g. */
  function VelarPalatalization(): (rules: seq<Rule>)
    ensures |rules| == 4
  {
    [Ctx(Not(Behind(Chars("aeiǝ"))), ["k"], Ahead(["!a", "a"]), "tʃ"),
     Ctx(Not(Behind(Chars("aeiǝ"))), ["g"], Ahead(["!a", "a"]), "dʒ"),
     Lit("K", "k"),
     Lit("G", "g")]
  }

  /** The K and G marks are gone once the velar palatalisation has run, whatever the word. */
  lemma VelarPalatalizationRemovesMarks(w: Text, rx: Engine)
    ensures 'K' !in Run(Shapes(VelarPalatalization()), rx, w)
    ensures 'G' !in Run(Shapes(VelarPalatalization()), rx, w)
  {
    ShapesRemoveLit(VelarPalatalization(), 2, 'K', "k", ["k", "g"], rx, w);
    ShapesRemoveLit(VelarPalatalization(), 3, 'G', "g", ["k", "g"], rx, w);
  }

  /** Lines 349-388: the open stressed vowels diphthongise, /aw/ becomes /ɔ/, and the unstressed final vowels fall. */
  function EarlyOldFrenchVowels(): seq<Step>
  {
    [Regex("!e(?!j)(?=([bdfgklmnprstvzðɣʎ]|tʃ|dʒ|ts|dz)?[jw]?[aeiouɛɔǝ]|$)", "!ej"),
     Regex("!o(?!j)(?=([bdfgklmnprstvzðɣʎ]|tʃ|dʒ|ts|dz)?[jw]?[aeiouɛɔǝ]|$)", "!ow"),
     Regex("!a(?![jw]|ɣ[uo])(?=([bdfgklmnprstvzðɣʎ]|tʃ|dʒ|ts|dz)?[jw]?[aeiouɛɔǝ]|$)", "!æ"),
     Regex("aw?[gɣ](!?)[ou]", "\\1ɔw")]
    + Shapes(BackDiphthongs())
    + [Regex("([aeiouɛɔæǝ][jw]?[bdfgklmnprstvzðɣɲʎʃʒ]*)[jw]?[eiouɛɔæǝ][jw]?(?=[bdfgklmnprstvzðɣɲʎʃʒ]*$)", "\\1"),
       Regex("([aeiouɛɔæǝ][jw]?[bdfgklmnprstvzðɣɲʎʃʒ]*)a(?=[bdfgklmnprstvzðɣɲʎʃʒ]*$)", "\\1ǝ"),
       Shape(FinalSchwa())]
  }

  /** Lines 369-371: a before w and a vowel, and aw, become ɔ, or o before j. */
  function BackDiphthongs(): (rules: seq<Rule>)
    ensures |rules| == 3
  {
    [Ctx(Always, ["a"], Ahead(Prefixed("w", Optional("!", Chars("aeiouɛɔæǝ")))), "ɔ"),
     Ctx(Always, ["aw"], Ahead(["j"]), "o"),
     Lit("aw", "ɔ")]
  }

  /** Line 388: a final a becomes ǝ. */
  function FinalSchwa(): Rule
  {
    Suffix("a", "ǝ")
  }

  /** The second lenition: the first one again, now also after and before æ. */
  function SecondLenition(): (rules: seq<Rule>)
    ensures |rules| == 12
  {
    var after := Behind(Chars("aeiouɛɔæǝw"));
    var next := "aeiouɛɔæǝjw!";
    var voicing := Ahead(BeforeVowel(["r", ""], next));
    [Ctx(after, ["b", "f"], voicing, "v"),
     Ctx(after, ["p"], Ahead(BeforeVowel(["l", "r", ""], next)), "b"),
     Ctx(after, ["d"], Or(voicing, AtEnd), "ð"),
     Ctx(after, ["t"], Or(voicing, AtEnd), "d"),
     Ctx(after, ["s"], Ahead(Chars(next)), "z"),
     Ctx(after, ["g"], Ahead(Chars(next)), "ɣ"),
     Ctx(after, ["g"], Ahead(Chars("rln")), "j"),
     Ctx(Behind(Chars("aeiæǝ")), ["ɣ"], Ahead(Optional("!", Chars("aæǝ"))), "j"),
     Ctx(after, ["k"], voicing, "g"),
     Ctx(Always, ["k"], Ahead(["l"]), "j"),
     Ctx(after, ["ts"], Ahead(Chars(next)), "dz"),
     Ctx(after, ["tʃ"], Ahead(Chars(next)), "dʒ")]
  }

  /** Lines 438-486: /æ/ settles, gemination is lost, final consonants devoice, and /dz/, /ɲ/, /ʎ/ and the triphthongs change. */
  function EarlyOldFrenchConsonants(): seq<Step>
  {
    Shapes(OpenE()) + [Collapse(AnyChar), Shape(VelarFricativeGlide())]
    + Shapes(FinalRules(FinalDevoicingAsWritten))
    + Shapes(LateConsonants())
  }

  /** Lines 438-440: æ becomes jɛ after an affricate, aj before a nasal, ɛ elsewhere. */
  function OpenE(): (rules: seq<Rule>)
    ensures |rules| == 3
  {
    [[Alt(Behind(["tʃ", "dʒ"]), "!æ", Always, "j!ɛ"), Alt(Behind(["tʃ", "dʒ"]), "æ", Always, "jɛ")],
     Ctx(Always, ["æ"], Ahead(Chars("nm")), "aj"),
     Lit("æ", "ɛ")]
  }

  /** Line 455: ɣ becomes j. */
  function VelarFricativeGlide(): Rule
  {
    Lit("ɣ", "j")
  }

  /** Lines 467-486: dz becomes z but finally, s after ɲ and ʎ becomes ts, ɲ and ʎ before a consonant change, and the triphthongs reduce. */
  function LateConsonants(): (rules: seq<Rule>)
    ensures |rules| == 6
  {
    [Ctx(Always, ["dz"], Not(AtEnd), "z"),
     Ctx(Behind(Chars("ɲʎ")), ["s"], Always, "ts"),
     [Alt(Always, "ɲ", Not(Ahead(Chars("aeiouɛɔǝ!"))), "jn"), Alt(Always, "ɲ", AtEnd, "jn")],
     [Alt(Always, "ʎ", Not(Ahead(Chars("aeiouɛɔǝ!"))), "l"), Alt(Always, "ʎ", AtEnd, "l")],
     Ctx(Always, ["j!aj", "j!ej", "j!ɛj"], Always, "!i") + Ctx(Always, ["jaj", "jej", "jɛj"], Always, "i"),
     [Alt(Always, "w!ɔj", Always, "!uj"), Alt(Always, "wɔj", Always, "uj")]]
  }

  // ---------------------------------------------------------------------
  // Final devoicing: a chain of rules `p$` → `r`, each applied once.

  /** One rule `pat$` → `rep`. */
  datatype FinalRewrite = FinalRewrite(pat: Pattern, rep: Text)

  function FinalRules(fs: seq<FinalRewrite>): (rules: seq<Rule>)
    ensures |rules| == |fs|
    ensures forall k :: 0 <= k < |fs| ==> rules[k] == Suffix(fs[k].pat, fs[k].rep)
  {
    seq(|fs|, k requires 0 <= k < |fs| => Suffix(fs[k].pat, fs[k].rep))
  }

  /** Lines 456-463 as written: z$ runs before dz$. */
  const FinalDevoicingAsWritten: seq<FinalRewrite> := [
    FinalRewrite("b", "p"), FinalRewrite("v", "f"), FinalRewrite("d", "t"), FinalRewrite("ð", "θ"),
    FinalRewrite("z", "s"), FinalRewrite("g", "k"), FinalRewrite("dz", "ts"), FinalRewrite("dʒ", "tʃ")]

  /** Lines 456-463 with dz$ tried before z$, so that a final affricate devoices as a whole. */
  const FinalDevoicing: seq<FinalRewrite> := [
    FinalRewrite("b", "p"), FinalRewrite("v", "f"), FinalRewrite("d", "t"), FinalRewrite("ð", "θ"),
    FinalRewrite("dz", "ts"), FinalRewrite("z", "s"), FinalRewrite("g", "k"), FinalRewrite("dʒ", "tʃ")]

  function Last(s: Text): char
    requires |s| > 0
  {
    s[|s| - 1]
  }

  /**
   * No replacement ends in a character that ends some pattern, and none is
   * empty or holds a newline: once a rule has fired, no rule fires again.
   */
  predicate Settles(fs: seq<FinalRewrite>)
  {
    && (forall j :: 0 <= j < |fs| ==> |fs[j].rep| > 0 && '\n' !in fs[j].rep)
    && (forall j, k :: 0 <= j < |fs| && 0 <= k < |fs| ==> Last(fs[j].rep) != Last(fs[k].pat))
  }

  /** Every replacement is as long as its pattern, and no pattern is longer than two. */
  predicate ShortSwaps(fs: seq<FinalRewrite>)
  {
    forall k :: 0 <= k < |fs| ==> |fs[k].pat| <= 2 && |fs[k].rep| == |fs[k].pat|
  }

  /** Replacements that all end inside a set of characters, and patterns that all end outside it, settle. */
  lemma SettlesBy(fs: seq<FinalRewrite>, ends: set<char>)
    requires forall j :: 0 <= j < |fs| ==> |fs[j].rep| > 0 && '\n' !in fs[j].rep && Last(fs[j].rep) in ends
    requires forall k :: 0 <= k < |fs| ==> Last(fs[k].pat) !in ends
    ensures Settles(fs)
  {
  }

  /** The first rule, from index `from` on, whose pattern ends the word. */
  function FirstFinal(fs: seq<FinalRewrite>, w: Text, from: nat): (r: Option<nat>)
    decreases |fs| - from
    ensures r.Some? ==> from <= r.value < |fs| && EndsAt(w, fs[r.value].pat, |w|)
    ensures r.Some? ==> forall k :: from <= k < r.value ==> !EndsAt(w, fs[k].pat, |w|)
    ensures r.None? ==> forall k :: from <= k < |fs| ==> !EndsAt(w, fs[k].pat, |w|)
  {
    if from >= |fs| then None
    else if EndsAt(w, fs[from].pat, |w|) then Some(from)
    else FirstFinal(fs, w, from + 1)
  }

  /** The word with only the first rule (from index `from` on) whose pattern ends it applied. */
  function FirstFinalRewrite(fs: seq<FinalRewrite>, w: Text, from: nat): Text
  {
    match FirstFinal(fs, w, from)
    case None => w
    case Some(k) => w[..|w| - |fs[k].pat|] + fs[k].rep
  }

  /** A rule whose pattern cannot end the word leaves it as it is. */
  lemma SuffixMisses(p: Pattern, r: Text, w: Text)
    requires '\n' !in w && |w| > 0 && Last(p) != Last(w)
    ensures Apply(Suffix(p, r), w) == w
  {
    SuffixRule(p, r, w);
    assert !EndsAt(w, p, |w|) by {
      if |p| <= |w| {
        assert w[|w| - |p|..|w|][|p| - 1] == Last(w);
      }
    }
  }

  /** A word that no remaining pattern can end passes the rest of the chain unchanged. */
  lemma {:induction false} ChainMisses(fs: seq<FinalRewrite>, from: nat, w: Text)
    requires '\n' !in w && |w| > 0
    requires forall k :: from <= k < |fs| ==> Last(fs[k].pat) != Last(w)
    ensures Chain(FinalRules(fs), from, w) == w
    decreases |fs| - from
  {
    if from < |fs| {
      SuffixMisses(fs[from].pat, fs[from].rep, w);
      ChainMisses(fs, from + 1, w);
    }
  }

  /** The word a rule `p$` → `r` leaves ends as r ends, and holds a newline only if r does. */
  lemma Fired(w: Text, p: Pattern, r: Text)
    requires '\n' !in w && '\n' !in r && |r| > 0 && |p| <= |w|
    ensures |w[..|w| - |p|] + r| > 0 && Last(w[..|w| - |p|] + r) == Last(r)
    ensures '\n' !in w[..|w| - |p|] + r
  {
    var v := w[..|w| - |p|] + r;
    forall i | 0 <= i < |v|
      ensures v[i] != '\n'
    {
      if i < |w| - |p| {
        assert v[i] == w[i];
      } else {
        assert v[i] == r[i - (|w| - |p|)];
      }
    }
  }

  /** The rule at `from` fires on the word, and no later rule fires after it. */
  lemma FiresHere(fs: seq<FinalRewrite>, from: nat, w: Text)
    requires '\n' !in w && Settles(fs)
    requires from < |fs| && EndsAt(w, fs[from].pat, |w|)
    ensures Chain(FinalRules(fs), from, w) == FirstFinalRewrite(fs, w, from)
  {
    var p, r := fs[from].pat, fs[from].rep;
    var v := w[..|w| - |p|] + r;
    FiresStep(fs, from, w);
    Fired(w, p, r);
    assert forall k :: from + 1 <= k < |fs| ==> Last(fs[k].pat) != Last(v);
    ChainMisses(fs, from + 1, v);
  }

  /** The rule at `from` rewrites the end of the word, and the chain goes on with the result. */
  lemma FiresStep(fs: seq<FinalRewrite>, from: nat, w: Text)
    requires '\n' !in w
    requires from < |fs| && EndsAt(w, fs[from].pat, |w|)
    ensures Chain(FinalRules(fs), from, w) == Chain(FinalRules(fs), from + 1, w[..|w| - |fs[from].pat|] + fs[from].rep)
  {
    SuffixRule(fs[from].pat, fs[from].rep, w);
    assert FinalRules(fs)[from] == Suffix(fs[from].pat, fs[from].rep);
  }

  /** The rule at `from` misses the word, which passes on to the next one. */
  lemma MissesHere(fs: seq<FinalRewrite>, from: nat, w: Text)
    requires '\n' !in w
    requires from < |fs| && !EndsAt(w, fs[from].pat, |w|)
    ensures Chain(FinalRules(fs), from, w) == Chain(FinalRules(fs), from + 1, w)
    ensures FirstFinalRewrite(fs, w, from) == FirstFinalRewrite(fs, w, from + 1)
  {
    SuffixRule(fs[from].pat, fs[from].rep, w);
    assert FirstFinal(fs, w, from) == FirstFinal(fs, w, from + 1);
  }

  /** Along a settling chain, the first rule whose pattern ends the word fires and no other. */
  lemma {:induction false} ChainFiresOnce(fs: seq<FinalRewrite>, from: nat, w: Text)
    requires '\n' !in w && Settles(fs)
    ensures Chain(FinalRules(fs), from, w) == FirstFinalRewrite(fs, w, from)
    decreases |fs| - from
  {
    if from >= |fs| {
      assert FirstFinal(fs, w, from) == None;
    } else if EndsAt(w, fs[from].pat, |w|) {
      FiresHere(fs, from, w);
    } else {
      MissesHere(fs, from, w);
      ChainFiresOnce(fs, from + 1, w);
    }
  }

  /** Both devoicing lists settle, and both only swap the last one or two characters. */
  lemma FinalDevoicingShapes()
    ensures Settles(FinalDevoicingAsWritten) && Settles(FinalDevoicing)
    ensures ShortSwaps(FinalDevoicingAsWritten) && ShortSwaps(FinalDevoicing)
  {
    var voiceless := {'p', 'f', 't', 'θ', 's', 'k', 'ʃ'};
    SettlesBy(FinalDevoicingAsWritten, voiceless);
    SettlesBy(FinalDevoicing, voiceless);
  }

  /** A list of short swaps changes at most the last two characters, and keeps the length. */
  lemma FirstFinalKeepsPrefix(fs: seq<FinalRewrite>, w: Text)
    requires ShortSwaps(fs)
    ensures |FirstFinalRewrite(fs, w, 0)| == |w|
    ensures forall i :: 0 <= i < |w| - 2 ==> FirstFinalRewrite(fs, w, 0)[i] == w[i]
  {
  }

  /**
   * The devoicing chain changes at most the last two characters: the first
   * rule whose voiced pattern ends the word puts its voiceless partner in
   * its place, and no other rule fires.
   */
  lemma FinalDevoicingFiresOnce(w: Text)
    requires '\n' !in w
    ensures Chain(FinalRules(FinalDevoicing), 0, w) == FirstFinalRewrite(FinalDevoicing, w, 0)
    ensures |Chain(FinalRules(FinalDevoicing), 0, w)| == |w|
    ensures forall i :: 0 <= i < |w| - 2 ==> Chain(FinalRules(FinalDevoicing), 0, w)[i] == w[i]
  {
    FinalDevoicingShapes();
    ChainFiresOnce(FinalDevoicing, 0, w);
    FirstFinalKeepsPrefix(FinalDevoicing, w);
  }

  /** As written the chain also fires at most one rule, and changes at most the last two characters. */
  lemma FinalDevoicingAsWrittenFiresOnce(w: Text)
    requires '\n' !in w
    ensures Chain(FinalRules(FinalDevoicingAsWritten), 0, w) == FirstFinalRewrite(FinalDevoicingAsWritten, w, 0)
    ensures |Chain(FinalRules(FinalDevoicingAsWritten), 0, w)| == |w|
    ensures forall i :: 0 <= i < |w| - 2 ==> Chain(FinalRules(FinalDevoicingAsWritten), 0, w)[i] == w[i]
  {
    FinalDevoicingShapes();
    ChainFiresOnce(FinalDevoicingAsWritten, 0, w);
    FirstFinalKeepsPrefix(FinalDevoicingAsWritten, w);
  }

  /** As written, the dz$ rule (index 6) is never the one that fires: a final dz ends in z, which the z$ rule (index 4) takes first. */
  lemma DzNeverFires(w: Text)
    ensures FirstFinal(FinalDevoicingAsWritten, w, 0) != Some(6)
  {
    if EndsAt(w, "dz", |w|) {
      assert w[|w| - 1..|w|] == w[|w| - 2..|w|][1..];
    }
  }

  /** The word s + "dz" holds no newline, ends in z and in dz, and its first rewrites are s + "ds" and s + "ts". */
  lemma EndsInDz(s: Text)
    requires '\n' !in s
    ensures '\n' !in s + "dz"
    ensures EndsAt(s + "dz", "z", |s| + 2) && EndsAt(s + "dz", "dz", |s| + 2)
    ensures (s + "dz")[..|s| + 1] + "s" == s + "ds" && (s + "dz")[..|s|] + "ts" == s + "ts"
  {
    var w := s + "dz";
    assert forall i :: 0 <= i < |w| ==> w[i] in s || w[i] in "dz";
    assert w[|w| - 1..|w|] == "z" && w[|w| - 2..|w|] == "dz";
  }

  /** As written, a final dz devoices only in half: z$ fires first and turns it into "ds". */
  lemma FinalDzAsWritten(s: Text)
    requires '\n' !in s
    ensures Chain(FinalRules(FinalDevoicingAsWritten), 0, s + "dz") == s + "ds"
  {
    EndsInDz(s);
    assert FirstFinal(FinalDevoicingAsWritten, s + "dz", 0) == Some(4);
    FinalDevoicingAsWrittenFiresOnce(s + "dz");
  }

  /** With dz$ tried before z$, a final dz devoices as a whole into "ts". */
  lemma FinalDzDevoiced(s: Text)
    requires '\n' !in s
    ensures Chain(FinalRules(FinalDevoicing), 0, s + "dz") == s + "ts"
  {
    EndsInDz(s);
    assert FirstFinal(FinalDevoicing, s + "dz", 0) == Some(4);
    FinalDevoicingFiresOnce(s + "dz");
  }

  /** Devoicing twice is devoicing once, as written and corrected: the voiceless results are not targets. */
  lemma FinalDevoicingIdempotent(w: Text)
    requires '\n' !in w
    ensures Chain(FinalRules(FinalDevoicingAsWritten), 0, Chain(FinalRules(FinalDevoicingAsWritten), 0, w))
         == Chain(FinalRules(FinalDevoicingAsWritten), 0, w)
    ensures Chain(FinalRules(FinalDevoicing), 0, Chain(FinalRules(FinalDevoicing), 0, w)) == Chain(FinalRules(FinalDevoicing), 0, w)
  {
    FinalDevoicingShapes();
    ChainSettled(FinalDevoicingAsWritten, w);
    ChainSettled(FinalDevoicing, w);
  }

  /** A settling chain leaves its own output as it is. */
  lemma ChainSettled(fs: seq<FinalRewrite>, w: Text)
    requires '\n' !in w && Settles(fs)
    ensures Chain(FinalRules(fs), 0, Chain(FinalRules(fs), 0, w)) == Chain(FinalRules(fs), 0, w)
  {
    ChainFiresOnce(fs, 0, w);
    match FirstFinal(fs, w, 0)
    case None =>
      ChainFiresOnce(fs, 0, w);
    case Some(k) =>
      var v := w[..|w| - |fs[k].pat|] + fs[k].rep;
      Fired(w, fs[k].pat, fs[k].rep);
      assert forall j :: 0 <= j < |fs| ==> Last(fs[j].pat) != Last(v);
      ChainMisses(fs, 0, v);
  }

  // ---------------------------------------------------------------------
  // Old French to Early Modern French.

  /** `to_old_french`: the stage before it, then this stage's own rules. */
  function ToOldFrench(word: Text, rx: Engine): (r: Text)
    ensures r == Run(ThroughOldFrench(), rx, SetupAsWritten(word))
  {
    RunConcat(ThroughEarlyOldFrench(), OldFrenchSteps(), rx, SetupAsWritten(word));
    Run(OldFrenchSteps(), rx, ToEarlyOldFrench(word, rx))
  }

  /** The rules of `to_old_french` itself, in order. */
  function OldFrenchSteps(): seq<Step>
  {
    [Regex("[fpk](?=[st]$)", ""),
     Regex("([aeoɛɔ]w?j?)(?=[nmɲ])", "\\1ñ")]
    + Shapes(OralDiphthongs())
    + Shapes(OldFrenchLosses())
    + [Regex("([uiy]w?j?)(?=[nmɲ])", "\\1ñ")]
  }

  /** Lines 513-528: oral ej, ow and wɔ shift, and a before s backs to ɑ. */
  function OralDiphthongs(): (rules: seq<Rule>)
    ensures |rules| == 4
  {
    [Ctx(Always, ["ej"], Not(Nasal), "oj"),
     Ctx(Always, ["ow"], Not(Ahead(Chars("bpmñ"))), "ew"),
     [Alt(Always, "w!ɔ", Not(Nasal), "w!ɛ"), Alt(Always, "wɔ", Not(Nasal), "wɛ")],
     Ctx(Always, ["a"], Ahead(["s"]), "ɑ")]
  }

  /** Lines 532-554: θ and ð are lost, a in hiatus weakens, s before a consonant becomes h, u fronts, nasal wɔ becomes u, and final rn, rm become r. */
  function OldFrenchLosses(): (rules: seq<Rule>)
    ensures |rules| == 6
  {
    [Lits(["θ", "ð"], ""),
     Ctx(Always, ["a"], Ahead(Optional("!", Chars("aeiouɛɔɑ"))), "ǝ"),
     Ctx(Always, ["s"], Not(Or(Ahead(Optional("!", Chars("aeiouɛɔɑǝwj"))), AtEnd)), "h"),
     Lit("u", "y"),
     [Alt(Always, "w!ɔ", Nasal, "!u"), Alt(Always, "wɔ", Nasal, "u")],
     Ctx(Always, ["rn", "rm"], AtEnd, "r")]
  }

  /** `(?!!?[aeiouyɛɔɑǝwj]|l!?[aɑǝ])`: the l is not followed by a vowel, nor by a second l before a, ɑ or ǝ. */
  function LBeforeConsonant(): Look
  {
    Not(Ahead(Optional("!", Chars("aeiouyɛɔɑǝwj")) + Prefixed("l", Optional("!", Chars("aɑǝ")))))
  }

  /** `to_late_old_french`: the stage before it, then this stage's own rules. */
  function ToLateOldFrench(word: Text, rx: Engine): (r: Text)
    ensures r == Run(ThroughLateOldFrench(), rx, SetupAsWritten(word))
  {
    RunConcat(ThroughOldFrench(), LateOldFrenchSteps(), rx, SetupAsWritten(word));
    Run(LateOldFrenchSteps(), rx, ToOldFrench(word, rx))
  }

  /** The rules of `to_late_old_french` itself, in order, block by block. */
  function LateOldFrenchSteps(): seq<Step>
  {
    Shapes(LVocalisation()) + Shapes(RoundedVowels()) + Shapes(Falling())
    + [Regex("e(?=ñ?ɲ|ñ?[bdfghklmnprstvzɲʎʃʒ]+$|ñ?[bdfghklmnprstvzɲʎʃʒ]{2,})", "ɛ")]
    + Shapes(Deaffrication())
  }

  /** Lines 576-579: l before a consonant vocalises. */
  function LVocalisation(): (rules: seq<Rule>)
    ensures |rules| == 4
  {
    [Ctx(And(Not(Behind(Chars("jw"))), Not(Behind(["j!", "w!"]))), ["ɛl"], LBeforeConsonant(), "ɛal"),
     Ctx(Always, ["il"], LBeforeConsonant(), "i"),
     Ctx(Always, ["yl"], LBeforeConsonant(), "y"),
     Ctx(Always, ["l"], LBeforeConsonant(), "w")]
  }

  /** Lines 586-600: o and ow become u, wɛ and ew become œ, and ɔ, œ close before s, h (and t). */
  function RoundedVowels(): (rules: seq<Rule>)
    ensures |rules| == 5
  {
    [[Alt(Always, "ow", Not(Ahead(["j"])), "u"), Alt(Always, "o", Not(Ahead(["j"])), "u")],
     [Alt(Always, "w!ɛ", Not(Ahead(["w"])), "!œ"), Alt(Always, "wɛ", Not(Ahead(["w"])), "œ")],
     Lit("ew", "œ"),
     Ctx(Always, ["ɔ"], Ahead(Chars("sh")), "o"),
     Ctx(Always, ["œ"], Ahead(Chars("sht")), "ø")]
  }

  /** Lines 603-616: the falling diphthongs uj, yj, oj, ɔj shift their stress, and aj becomes E. */
  function Falling(): (rules: seq<Rule>)
    ensures |rules| == 4
  {
    [[Alt(Always, "!uj", Always, "w!i"), Alt(Always, "uj", Always, "wi")],
     [Alt(Always, "!yj", Always, "ɥ!i"), Alt(Always, "yj", Always, "ɥi")],
     Ctx(Always, ["!oj", "!ɔj"], Always, "w!ɛ") + Ctx(Always, ["oj", "ɔj"], Always, "wɛ"),
     Lit("aj", "E")]
  }

  /** Lines 632-642: the affricates lose their stop, j after ʃ and ʒ is absorbed unless nasal follows, and h is lost. */
  function Deaffrication(): (rules: seq<Rule>)
    ensures |rules| == 8
  {
    var oral := Not(Ahead(Optional("!", Product(Chars("aeiouyɛEɔɑǝœ"), ["ñ"]))));
    [Lit("ts", "s"),
     Lit("dz", "z"),
     Lit("dtʃ", "ʒ"),
     Lit("tʃ", "ʃ"),
     Ctx(Always, ["ʃj"], oral, "ʃ"),
     Ctx(Always, ["ʒj"], oral, "ʒ"),
     Lit("dʒ", "ʒ"),
     Lit("h", "")]
  }

  /**
   * `to_middle_french`: every step through this stage, after setup. Its own
   * rules are chained on what the steps through Late Old French leave, that
   * is, on the Late Old French form.
   */
  function ToMiddleFrench(word: Text, rx: Engine): (r: Text)
    ensures r == Chain(MiddleFrenchRules(), 0, Run(ThroughLateOldFrench(), rx, SetupAsWritten(word)))
  {
    RunBlock(ThroughLateOldFrench(), MiddleFrenchRules(), rx, SetupAsWritten(word));
    Run(ThroughMiddleFrench(), rx, SetupAsWritten(word))
  }

  /** The rules of `to_middle_french` itself, in order. */
  function MiddleFrenchRules(): (rules: seq<Rule>)
    ensures |rules| == 12
  {
    [Lit("ɛaw", "o"),
     Lit("aw", "o"),
     [Alt(Always, "w!ɛw", Always, "!œ"), Alt(Always, "wɛw", Always, "œ")],
     Lit("ɛw", "œ"),
     Lit("ɔw", "u"),
     Lit("ow", "u"),
     Ctx(Always, ["u"], Nasal, "ɔ"),
     Ctx(Always, ["ñ"], Ahead(Product(Chars("nmɲ"), Optional("!", Chars("aeiouyɛEɔɑœǝwj")))), ""),
     Ctx(Not(Behind(Chars("jw"))), ["!e", "!ɛ"], Nasal, "!ɑ"),
     Ctx(Not(Behind(["j", "w", "!"])), ["e", "ɛ"], Nasal, "ɑ"),
     Lit("ej", "ɛ"),
     Ctx(Behind(["ñ"]), ["n", "m", "ɲ"], Always, "")]
  }

  /** `to_early_modern_french`: the stage before it, then this stage's own rules. */
  function ToEarlyModernFrench(word: Text, rx: Engine): (r: Text)
    ensures r == Run(ThroughEarlyModernFrench(), rx, SetupAsWritten(word))
  {
    RunConcat(ThroughMiddleFrench(), EarlyModernFrenchSteps(), rx, SetupAsWritten(word));
    Run(EarlyModernFrenchSteps(), rx, ToMiddleFrench(word, rx))
  }

  /** The rules of `to_early_modern_french` itself, in order. */
  function EarlyModernFrenchSteps(): seq<Step>
  {
    [Shape(OralWa()),
     Regex("[^aeiouyɛEɔɑœǝwjfklrñ]+$", ""),
     Regex("([aeiouyɛEɔɑœǝ]ñ?[bdfgjklmnprstvwzɲʎʃʒ]*!?[eɛE])r$", "\\1")]
  }

  /** Line 716: an oral wɛ becomes wa. */
  function OralWa(): Rule
  {
    [Alt(Always, "w!ɛ", Not(Nasal), "w!a"), Alt(Always, "wɛ", Not(Nasal), "wa")]
  }

  // ---------------------------------------------------------------------
  // Modern French: every rule is of a modelled shape.

  /** The rules of `to_modern_french` itself, in order. */
  function ModernFrenchRules(): (rules: seq<Rule>)
    ensures |rules| == 11
  {
    [Lit("r", "ʁ"), Lit("ʎ", "j"), Suffix("ǝ", ""), Ctx(Always, ["i", "y"], Nasal, "ɛ"),
     Ctx(Always, ["a"], Nasal, "ɑ"), Ctx(Always, ["ɑ"], Not(Nasal), "a"), Lit("ǝ", "ø"),
     Suffix("ɛ", "e"), Suffix("ɔ", "o"), Suffix("œ", "ø"), Lit("E", "ɛ")]
  }

  /**
   * `to_modern_french`: the stage before it, then this stage's own rules. A
   * Modern French word holds no r, ʎ, schwa ǝ or E, whatever the earlier
   * stages and the engine produced.
   */
  function ToModernFrench(word: Text, rx: Engine): (r: Text)
    ensures forall c :: c in "rʎǝE" ==> c !in r
  {
    ModernFrenchRemoves(ToEarlyModernFrench(word, rx));
    ModernFrench(ToEarlyModernFrench(word, rx))
  }

  /** This stage's own rules, in order, on a word. */
  function ModernFrench(w: Text): Text
  {
    Chain(ModernFrenchRules(), 0, w)
  }

  const ModernReplacements: seq<Text> := ["ʁ", "j", "", "ɛ", "ɑ", "a", "ø", "e", "o", "ø", "ɛ"]

  lemma ModernFrenchReplacements()
    ensures WritesFrom(ModernFrenchRules(), 0, ModernReplacements)
  {
    var rules: seq<Rule> := ModernFrenchRules();
    forall j | 0 <= j < |rules|
      ensures forall k :: 0 <= k < |rules[j]| ==> rules[j][k].rep in ModernReplacements
    {
    }
  }

  lemma ModernFrenchLiterals()
    ensures ModernFrenchRules()[0] == Lit("r", "ʁ") && ModernFrenchRules()[1] == Lit("ʎ", "j")
    ensures ModernFrenchRules()[6] == Lit("ǝ", "ø") && ModernFrenchRules()[10] == Lit("E", "ɛ")
  {
  }

  /** A one-character rule of the Modern French list whose character no rule writes removes it from every word. */
  lemma ModernFrenchRemovesOne(w: Text, k: nat, c: char, r: Text)
    requires k < |ModernFrenchRules()| && ModernFrenchRules()[k] == Lit([c], r) && c in "rʎǝE"
    ensures c !in ModernFrench(w)
  {
    ModernFrenchReplacements();
    ChainRemovesLit(ModernFrenchRules(), 0, k, w, c, r, ModernReplacements);
  }

  /**
   * The Modern French rules leave no r, ʎ, schwa ǝ or E in any word: each is
   * rewritten everywhere by a rule of its own, and no later rule writes it back.
   */
  lemma ModernFrenchRemoves(w: Text)
    ensures forall c :: c in "rʎǝE" ==> c !in ModernFrench(w)
  {
    ModernFrenchLiterals();
    ModernFrenchRemovesOne(w, 0, 'r', "ʁ");
    ModernFrenchRemovesOne(w, 1, 'ʎ', "j");
    ModernFrenchRemovesOne(w, 6, 'ǝ', "ø");
    ModernFrenchRemovesOne(w, 10, 'E', "ɛ");
  }

  /** `ǝ$` removes one final schwa, and only one: "…ǝǝ" keeps the first. */
  lemma FinalSchwaLoss(s: Text)
    requires '\n' !in s
    ensures Apply(Suffix("ǝ", ""), s + "ǝ") == s
    ensures Apply(Suffix("ǝ", ""), s + "ǝǝ") == s + "ǝ"
  {
    var one, two := s + "ǝ", s + "ǝǝ";
    assert '\n' !in one && one[|one| - 1..|one|] == "ǝ" && one[..|one| - 1] == s;
    assert '\n' !in two && two[|two| - 1..|two|] == "ǝ" && two[..|two| - 1] == one;
    SuffixRule("ǝ", "", one);
    SuffixRule("ǝ", "", two);
  }

  /** A word that does not end in a schwa keeps all its schwas through `ǝ$`. */
  lemma FinalSchwaKept(s: Text)
    requires '\n' !in s && (|s| == 0 || Last(s) != 'ǝ')
    ensures Apply(Suffix("ǝ", ""), s) == s
  {
    if |s| > 0 {
      SuffixMisses("ǝ", "", s);
    } else {
      ApplyUnchanged(Suffix("ǝ", ""), s);
    }
  }
}
