/**
 * new/french_converter.py: eight stages, Latin to Modern French, run in a
 * fixed order over one word. Each stage rewrites the word rule by rule and,
 * between rules, grows or shrinks the shared consonant and vowel lists, so a
 * rule that splices in `join(consonants)` sees the inventory exactly as it
 * stands at that line.
 *
 * Rules of the shapes in module Rewrite are applied exactly. The rest (those
 * with repetition such as `{join(consonants)}*`, or an anchor inside a
 * lookahead) are handed, with their pattern text rendered as the source
 * renders it, to the regular-expression engine `rx`, which is a parameter.
 */
module NewConverter {
  import opened Results
  import opened Rewrite
  import opened Gemination
  import opened Inventory

  /** `list.remove` of a symbol the list does not hold. */
  datatype Error = ValueError(symbol: Symbol)

  /** `sub(pattern, repl, string, debug)`: the engine's result; `debug` only adds a log line. */
  function Sub(rx: Engine, pattern: Text, repl: Text, s: Text, debug: bool): Text
  {
    rx(pattern, repl, s)
  }

  /** Logging never changes the word. */
  lemma SubIgnoresDebug(rx: Engine, pattern: Text, repl: Text, s: Text)
    ensures Sub(rx, pattern, repl, s, true) == Sub(rx, pattern, repl, s, false) == rx(pattern, repl, s)
  {
  }

  // ---------------------------------------------------------------------
  // Pieces of patterns the stages share.

  const Stops: seq<Text> := ["p", "b", "t", "d", "g", "k"]

  /** `(?:p|b|t|d|g|k)(?:r|l)` */
  const StopLiquids: seq<Text> := ["pr", "pl", "br", "bl", "tr", "tl", "dr", "dl", "gr", "gl", "kr", "kl"]

  /** `/?(?:o|u|ɔ)` */
  const BackRounded: seq<Text> := ["/o", "/u", "/ɔ", "o", "u", "ɔ"]

  /** `/?` followed by one of the alternatives. */
  function Stressable(alts: seq<Text>): seq<Text>
  {
    Product(["/", ""], alts)
  }

  /** `{join(vowels)}w?j?`, the context of the lenitions. */
  function AfterVowel(vowels: seq<Symbol>): Look
  {
    Behind(Product(Group(vowels), ["wj", "w", "j", ""]))
  }

  // ---------------------------------------------------------------------
  // Loss of /g/ between a back rounded vowel and /a/ (the early Old French stage).

  /** `(?=o|u|ɔ|w)g(?=/?a)` → "": a lookahead where the context precedes the g. */
  function VelarLossAsWritten(): Rule
  {
    [Alt(Ahead(["o", "u", "ɔ", "w"]), "g", Ahead(["/a", "a"]), "")]
  }

  /** `(?<=o|u|ɔ|w)g(?=/?a)` → "" */
  function VelarLoss(): Rule
  {
    [Alt(Behind(["o", "u", "ɔ", "w"]), "g", Ahead(["/a", "a"]), "")]
  }

  /** As written, the rule can never match: the one character would have to be g and a back vowel at once. */
  lemma VelarLossAsWrittenNeverFires(s: Text)
    ensures Apply(VelarLossAsWritten(), s) == s
  {
    var rule := VelarLossAsWritten();
    var backs: seq<Text> := ["o", "u", "ɔ", "w"];
    forall i, k | 0 <= i < |s| && 0 <= k < |rule|
      ensures !Fires(rule[k], s, i)
    {
      if StartsAt(s, "g", i) {
        assert s[i..i + 1] == "g";
        forall j | 0 <= j < |backs|
          ensures !StartsAt(s, backs[j], i)
        {
          assert |backs[j]| == 1 && backs[j][0] != 'g';
          assert s[i..i + 1][0] == 'g';
        }
      }
    }
    ApplyUnchanged(rule, s);
  }

  /** "uga" keeps its g as written. */
  lemma VelarLossAsWrittenKeeps()
    ensures Apply(VelarLossAsWritten(), "uga") == "uga"
  {
    VelarLossAsWrittenNeverFires("uga");
  }

  /** With the lookbehind, a g after o, u, ɔ or w and before a, stressed or not, is lost. */
  lemma VelarLossDeletes(v: char, t: Text)
    requires v in {'o', 'u', 'ɔ', 'w'}
    requires StartsAt(t, "a", 0) || StartsAt(t, "/a", 0)
    requires 'g' !in t
    ensures Apply(VelarLoss(), [v, 'g'] + t) == [v] + t
  {
    VelarLossKeepsVowel(v, t);
    VelarLossDropsG(v, t);
    VelarLossQuietAfter(v, t);
  }

  /** The g between the vowels is the first match, and is replaced by nothing. */
  lemma VelarLossDropsG(v: char, t: Text)
    requires v in {'o', 'u', 'ɔ', 'w'}
    requires StartsAt(t, "a", 0) || StartsAt(t, "/a", 0)
    ensures ApplyFrom(VelarLoss(), [v, 'g'] + t, 1) == ApplyFrom(VelarLoss(), [v, 'g'] + t, 2)
  {
    var rule := VelarLoss();
    var s := [v, 'g'] + t;
    VelarLossFires(v, t);
    assert FirstFiring(rule, s, 1, 0) == Some(0);
    ApplyFromFired(rule, s, 1, 0);
  }

  /** The vowel before the g does not start a match, and is copied. */
  lemma VelarLossKeepsVowel(v: char, t: Text)
    requires v in {'o', 'u', 'ɔ', 'w'}
    ensures ApplyFrom(VelarLoss(), [v, 'g'] + t, 0) == [v] + ApplyFrom(VelarLoss(), [v, 'g'] + t, 1)
  {
    var rule := VelarLoss();
    var s := [v, 'g'] + t;
    assert s[0..1] == [v];
    assert !StartsAt(s, "g", 0);
    assert FirstFiring(rule, s, 0, 0).None?;
    ApplyFromCopied(rule, s, 0);
  }

  /** After the lost g, a text without g is copied unchanged. */
  lemma VelarLossQuietAfter(v: char, t: Text)
    requires 'g' !in t
    ensures ApplyFrom(VelarLoss(), [v, 'g'] + t, 2) == t
  {
    var rule := VelarLoss();
    var s := [v, 'g'] + t;
    forall p, k | 2 <= p < |s| && 0 <= k < |rule|
      ensures !Fires(rule[k], s, p)
    {
      assert s[p] == t[p - 2];
    }
    CopiesWhereNothingFires(rule, s, 2, |s|);
    assert s[2..] == t;
  }

  lemma VelarLossFires(v: char, t: Text)
    requires v in {'o', 'u', 'ɔ', 'w'}
    requires StartsAt(t, "a", 0) || StartsAt(t, "/a", 0)
    ensures Fires(VelarLoss()[0], [v, 'g'] + t, 1)
  {
    var s := [v, 'g'] + t;
    var backs: seq<Text> := ["o", "u", "ɔ", "w"];
    var after: seq<Text> := ["/a", "a"];
    assert VelarLoss()[0] == Alt(Behind(backs), "g", Ahead(after), "");
    var k := if v == 'o' then 0 else if v == 'u' then 1 else if v == 'ɔ' then 2 else 3;
    assert backs[k] == [v];
    assert s[0..1] == [v];
    assert EndsAt(s, backs[k], 1);
    assert s[1..2] == "g";
    assert StartsAt(s, "g", 1);
    if StartsAt(t, "a", 0) {
      assert s[2..3] == t[0..1];
      assert StartsAt(s, after[1], 2);
    } else {
      assert s[2..4] == t[0..2];
      assert StartsAt(s, after[0], 2);
    }
  }

  lemma VelarLossExample()
    ensures Apply(VelarLoss(), "uga") == "ua"
  {
    assert StartsAt("a", "a", 0);
    VelarLossDeletes('u', "a");
    assert ['u', 'g'] + "a" == "uga";
    assert ['u'] + "a" == "ua";
  }

  // ---------------------------------------------------------------------
  // Latin to Proto-Western-Romance.

  /** /kw/, /gw/ written as the labiovelars "kʷ", "gʷ". */
  function Labiovelars(): (rules: seq<Rule>)
    ensures |rules| == 2
  {
    [Lit("kw", "kʷ"), Lit("gw", "gʷ")]
  }

  /** Ten vowels become seven; unstressed ɛ, ɔ are raised. */
  function SevenVowels(consonants: seq<Symbol>): (rules: seq<Rule>)
    ensures |rules| == 9
  {
    [Lit("a:", "a"),
     [Alt(Always, "aj", Or(Ahead(Group(consonants)), AtEnd), "ɛ"), Alt(Always, "e", Not(Ahead([":"])), "ɛ")],
     [Alt(Always, "oj", Or(Ahead(Group(consonants)), AtEnd), "e"), Alt(Always, "e:", Always, "e"),
      Alt(Always, "i", Not(Ahead([":"])), "e"), Alt(Always, "y", Not(Ahead([":"])), "e")],
     Lits(["i:", "y:"], "i"),
     Ctx(Always, ["o"], Not(Ahead([":"])), "ɔ"),
     [Alt(Always, "u", Not(Ahead([":"])), "o"), Alt(Always, "o:", Always, "o")],
     Lit("u:", "u"),
     Ctx(Not(Behind(["/"])), ["ɛ"], Always, "e"),
     Ctx(Not(Behind(["/"])), ["ɔ"], Always, "o")]
  }

  /** Final m after the first syllable is lost, otherwise it becomes n; h is lost; ns > s; rs > ss. */
  function ConsonantLosses(): (rules: seq<Rule>)
    ensures |rules| == 4
  {
    [Suffix("m", "n"), Lit("h", ""), Lit("ns", "s"), Lit("rs", "ss")]
  }

  /** Syncope between k, g and r, l; e, i in hiatus become j, which palatalizes a consonant before it. */
  function FrontGlides(consonants: seq<Symbol>, vowels: seq<Symbol>): (rules: seq<Rule>)
    ensures |rules| == 4
  {
    var v := Stressable(Group(vowels));
    [Ctx(Behind(["k", "g"]), vowels, Ahead(["r", "l"]), ""),
     Ctx(Always, ["/e", "/i"], Ahead(v), "j/") + Ctx(Always, ["e", "i"], Ahead(v), "j"),
     Ctx(Behind(Group(consonants)), ["j"], Always, "ʲ"),
     Ctx(Not(Behind(["k"])), ["kʲ"], Always, "kkʲ")]
  }

  /** o, u in hiatus become w; initial w > v; k, g palatalized before front vowels; j, dʲ, gʲ, z > ɟ. */
  function BackGlidesAndPalatals(vowels: seq<Symbol>): (rules: seq<Rule>)
    ensures |rules| == 4
  {
    var v := Stressable(Group(vowels));
    [Ctx(Always, ["/o", "/u"], Ahead(v), "w/") + Ctx(Always, ["o", "u"], Ahead(v), "w"),
     Ctx(AtStart, ["w"], Always, "v"),
     Captured(Behind(["k", "g"]), "", ["/e", "/i", "/ɛ", "e", "i", "ɛ"], "", Always, "ʲ", ""),
     Ctx(AtStart, ["j"], Always, "ɟ") + Lits(["dʲ", "gʲ", "z"], "ɟ")]
  }

  /** The last rule turns every z into ɟ, and no rule after it writes a z. */
  lemma BackGlidesRemoveZ(vowels: seq<Symbol>, w: Text)
    ensures 'z' !in Chain(BackGlidesAndPalatals(vowels), 0, w)
  {
    var rules := BackGlidesAndPalatals(vowels);
    assert rules[3][3] == Alt(Always, "z", Always, "ɟ");
    assert Rewrites(rules[3], 'z');
    forall k | 0 <= k < |rules[3]|
      ensures 'z' !in rules[3][k].rep
    {
    }
    ChainRemoves(rules, 0, 3, w, 'z');
  }

  /** `to_proto_western_romance` */
  method ToProtoWesternRomance(inv: SymbolInventory, word: Text, rx: Engine, debug: bool) returns (w: Text)
    modifies inv
    ensures inv.consonants == old(inv.consonants) + ["kʷ", "gʷ"] + ["ɟ"]
    ensures inv.vowels == old(inv.vowels) + ["ɛ", "ɔ"]
    ensures 'z' !in w
  {
    w := Chain(Labiovelars(), 0, word);
    inv.Extend(Consonants, ["kʷ", "gʷ"]);
    w := Sub(rx, "kʷ(?=.+kʷ)", "k", w, debug);
    w := InsertAtStart(w, Ahead(Product(["s"], Group(inv.consonants))), "i");
    w := Chain(SevenVowels(inv.consonants), 0, w);
    inv.Extend(Vowels, ["ɛ", "ɔ"]);
    var v, c := Join(inv.vowels, []), Join(inv.consonants, []);
    w := Sub(rx, "(?<=" + v + c + "*/?" + v + ")(?:m|n)$", "", w, debug);
    w := Chain(ConsonantLosses(), 0, w);
    w := Sub(rx, "(?<=" + v + c + "+)(e|o)r$", "r\\1", w, debug);
    w := Chain(FrontGlides(inv.consonants, inv.vowels), 0, w);
    w := Sub(rx, "(" + v + ")(/?)(?:o|u)(?=/?" + v + ")", "\\1\\2w", w, debug);
    BackGlidesRemoveZ(inv.vowels, w);
    w := Chain(BackGlidesAndPalatals(inv.vowels), 0, w);
    inv.Append(Consonants, "ɟ");
  }

  // ---------------------------------------------------------------------
  // Proto-Western-Romance to Proto-Gallo-Ibero-Romance.

  /** kʲ, tʲ merge as ʦʲ. */
  function Assibilation(): (rules: seq<Rule>)
    ensures |rules| == 2
  {
    [Lit("kkʲ", "ttʲ"), Lits(["kʲ", "tʲ"], "ʦʲ")]
  }

  /** k before s, t becomes j; gm > wm; first diphthongization; a > ɔ before back rounded vowels. */
  function FirstDiphthongization(consonants: seq<Symbol>, vowels: seq<Symbol>): (rules: seq<Rule>)
    ensures |rules| == 8
  {
    var next := Product(["ʲ", ""], Group(vowels));
    [Ctx(Always, ["k"], Ahead(["s"]), "js"),
     Ctx(Always, ["k"], Ahead(["t"]), "j"),
     Lit("gm", "wm"),
     Ctx(Always, ["/ɛ"], Ahead(Product(Group(consonants), next) + ["j"]), "j/ɛ"),
     Ctx(Not(Behind(["w"])), ["/ɔ"], Ahead(Product(Group(Kept(consonants, ["n", "m"])) + StopLiquids, next) + ["j"]), "w/ɔ"),
     Ctx(Always, ["/a"], Ahead(["o", "u", "ɔ"] + Product(["w"], Group(vowels)) + ["go", "gu", "gɔ", "ko", "ku", "kɔ"]), "/ɔ"),
     Ctx(Always, ["aw"], Ahead(["g/o", "g/u", "g/ɔ", "go", "gu", "gɔ", "k/o", "k/u", "k/ɔ", "ko", "ku", "kɔ"]), "ɔ"),
     Ctx(Behind(Group(Kept(vowels, ["ɔ"]))), ["w"], Ahead(Stressable(Group(vowels))), "v")]
  }

  /** First lenition: intervocalic stops and fricatives voiced or lost, also before a palatalized consonant. */
  function FirstLenition(vowels: seq<Symbol>): (rules: seq<Rule>)
    ensures |rules| == 13
  {
    var after := AfterVowel(vowels);
    var v := Product(["ʲ", ""], Stressable(Group(vowels)));
    [Ctx(after, ["b", "f"], Ahead(Product(["r", ""], v)), "v"),
     Ctx(after, ["p"], Ahead(Product(["r", "l", ""], v)), "b"),
     Ctx(after, ["d"], Or(Ahead(Product(["r", ""], v)), AtEnd), "ð"),
     Ctx(after, ["t"], Or(Ahead(Product(["r", ""], v)), AtEnd), "d"),
     Ctx(after, ["s"], Ahead(v), "z"),
     Ctx(after, ["ʦ"], Ahead(v), "ʣ"),
     Ctx(Behind(["ɔ"]), ["g", "k"], Ahead(["/o", "/u", "/ɔ", "/w", "o", "u", "ɔ", "w"]), "w"),
     Ctx(Behind(Group(vowels)), ["g"], Ahead(BackRounded), ""),
     Ctx(Behind(["u", "w"]), ["g"], Ahead(["/a", "a"]), ""),
     Ctx(Behind(["o", "ɔ"]), ["g"], Ahead(["/a", "a"]), "v"),
     Ctx(after, ["g"], Ahead(Product(["n", "r", "l", ""], v)), "j"),
     Ctx(after, ["k"], Ahead(Product(["r", "l", ""], v)), "g"),
     Ctx(Behind(["i", "e", "ɛ"]), ["kʷ"], Ahead(Stressable(Group(vowels))), "w")]
  }

  /** The new palatal consonants ɲ and ʎ. */
  function NewPalatals(): (rules: seq<Rule>)
    ensures |rules| == 2
  {
    [Lits(["jn", "nj", "nɟ", "nʲ"], "ɲ"), Lits(["jl", "gl", "lʲ"], "ʎ")]
  }

  /** `to_proto_gallo_ibero_romance` */
  method ToProtoGalloIberoRomance(inv: SymbolInventory, word: Text, rx: Engine, debug: bool) returns (w: Text)
    modifies inv
    ensures inv.consonants == old(inv.consonants) + ["ʦ"] + ["ð", "ʣ"] + ["ɲ", "ʎ"]
    ensures inv.vowels == old(inv.vowels)
  {
    w := Chain(Assibilation(), 0, word);
    inv.Append(Consonants, "ʦ");
    w := Chain(FirstDiphthongization(inv.consonants, inv.vowels), 0, w);
    w := Chain(FirstLenition(inv.vowels), 0, w);
    inv.Extend(Consonants, ["ð", "ʣ"]);
    w := Chain(NewPalatals(), 0, w);
    inv.Extend(Consonants, ["ɲ", "ʎ"]);
    var c := Join(inv.consonants, []);
    w := Sub(rx, "(?<=" + Join(inv.vowels, []) + c + "*)" + Join(inv.vowels, ["a"])
                 + "(?=" + c + "*(?:ʲ|j|w)?/" + Join(inv.vowels, []) + ")", "", w, debug);
  }

  // ---------------------------------------------------------------------
  // Proto-Gallo-Ibero-Romance to Early Old French.

  /** ɟ initially or after a consonant becomes ʤ, every other ɟ becomes j. */
  function Affrication(consonants: seq<Symbol>): (rules: seq<Rule>)
    ensures |rules| == 2
  {
    [Ctx(AtStart, ["ɟ"], Always, "ʤ") + Ctx(Behind(Product(Group(Kept(consonants, ["w", "j"])), ["ʲ", ""])), ["ɟ"], Always, "ʤ"),
     Lit("ɟ", "j")]
  }

  /** j palatalizes the consonant after it; palatalized consonants depalatalize and eject a j. */
  function JodPalatalization(consonants: seq<Symbol>, vowels: seq<Symbol>): (rules: seq<Rule>)
    ensures |rules| == 6
  {
    var v := Ahead(Stressable(Group(vowels)));
    [Captured(Always, "j", Group(Kept(consonants, ["ɲ", "ʎ"])), "", Not(Ahead(["ʲ"])), "j", "ʲ"),
     Ctx(Behind(Group(vowels)), ["bʲ", "vʲ"], v, "ʤ"),
     Ctx(Behind(Group(vowels)), ["pʲ", "fʲ"], v, "ʧ"),
     Ctx(Behind(Group(vowels)), ["mʲ"], v, "nʤ"),
     Ctx(Always, ["arʲ"], v, "jarʲ"),
     Captured(Behind(Group(vowels)), "", Group(Kept(consonants, ["r"])) + ["ss"], "ʲ", v, "j", "ʲ")]
  }

  /** Stressed open e, o, a become ej, ow, æ, except where a consonant cluster or j closes the syllable. */
  function SecondDiphthongization(consonants: seq<Symbol>, vowels: seq<Symbol>): (rules: seq<Rule>)
    ensures |rules| == 3
  {
    [Ctx(Always, ["/e"], Or(Ahead(Product(Group(Kept(consonants, ["j"])) + StopLiquids, Group(vowels))), AtEnd), "/ej"),
     Ctx(Always, ["/o"], Or(Ahead(Product(Group(Kept(consonants, ["j", "n", "m", "ɲ"])) + StopLiquids, Group(vowels))), AtEnd), "/ow"),
     Ctx(Always, ["/a"], Or(Ahead(Product(Group(Kept(consonants, ["j", "ɲ"])) + StopLiquids, Group(vowels))), AtEnd), "/æ")]
  }

  /** ɔ absorbs a back rounded vowel into ɔw; g is lost between vowels before o, u, ɔ and between a back vowel and a. */
  function BackRounding(vowels: seq<Symbol>): (rules: seq<Rule>)
    ensures |rules| == 3
  {
    [Ctx(Behind(["ɔ"]), ["go", "gu", "gɔ", "o", "u", "ɔ"], Always, "w"),
     Ctx(Behind(Group(vowels)), ["g"], Ahead(BackRounded), ""),
     VelarLossAsWritten()]
  }

  /** l vocalizes to ɫ, geminate ll too except before a; ʎ before a consonant as well. */
  function LVocalization(consonants: seq<Symbol>): (rules: seq<Rule>)
    ensures |rules| == 3
  {
    [Lit("lla", "la"), Lit("ll", "ɫɫ"), Ctx(Always, ["l", "ʎ"], Ahead(Group(Kept(consonants, ["j", "w"]))), "ɫ")]
  }

  /** tl > kl; the second lenition; k, g palatalized to ʧ, ʤ before a and æ. */
  function SecondLenition(vowels: seq<Symbol>): (rules: seq<Rule>)
    ensures |rules| == 12
  {
    var after := AfterVowel(vowels);
    var v := Stressable(Group(vowels));
    [Lit("tl", "kl"),
     Ctx(after, ["b", "f"], Ahead(Product(["r", ""], v)), "v"),
     Ctx(after, ["p"], Ahead(Product(["r", "l", ""], v)), "b"),
     Ctx(after, ["d"], Or(Ahead(Product(["r", ""], v)), AtEnd), "ð"),
     Ctx(after, ["t"], Or(Ahead(Product(["r", ""], v)), AtEnd), "d"),
     Ctx(after, ["s"], Ahead(v), "z"),
     Ctx(after, ["ʦ"], Ahead(v), "ʣ"),
     Ctx(after, ["g"], Ahead(Product(["n", "r", "l", ""], v)), "j"),
     Ctx(after, ["k"], Ahead(Product(["r", "l", ""], v)), "g"),
     Ctx(Behind(["i", "e", "ɛ", "æ"]), ["kʷ"], Ahead(v), "w"),
     Ctx(Always, ["kk", "k"], Ahead(["/a", "/æ", "a", "æ"]), "ʧ"),
     Ctx(Always, ["gg", "g"], Ahead(["/a", "/æ", "a", "æ"]), "ʤ")]
  }

  /** æ becomes jɛ after ʧ, ʤ before a nasal or j, aj before a nasal, ɛ everywhere else; then aw > ɔ. */
  function FrontA(): (rules: seq<Rule>)
    ensures |rules| == 4
  {
    [Ctx(Behind(["ʧ", "ʤ"]), ["/æ"], Ahead(["j", "n", "m", "ɲ"]), "j/ɛ"),
     Ctx(Not(Behind(["j"])), ["/æ"], Ahead(["n", "m", "ɲ"]), "/aj"),
     Lit("æ", "ɛ"),
     Lit("aw", "ɔ")]
  }

  /** No æ survives the front-a rules. */
  lemma FrontARemovesAe(w: Text)
    ensures 'æ' !in Chain(FrontA(), 0, w)
  {
    var rules := FrontA();
    assert rules[2] == Lit("æ", "ɛ") && rules[3] == Lit("aw", "ɔ");
    LitRewrites('æ', "ɛ");
    ChainRemoves(rules, 0, 2, w, 'æ');
  }

  /** Final voiced stops and fricatives devoiced, the affricate ʣ included. */
  function FinalDevoicing(): (rules: seq<Rule>)
    ensures |rules| == 7
  {
    [Suffix("b", "p"), Suffix("v", "f"), Suffix("d", "t"), Suffix("ð", "θ"), Suffix("z", "s"), Suffix("ʣ", "ʦ"), Suffix("g", "k")]
  }

  /** t inserted between ɲ, ʎ and s; ɲ, ʎ depalatalize; jaj, jɛj, jej > i and wɔj > uj; final a > ə. */
  function Depalatalization(consonants: seq<Symbol>): (rules: seq<Rule>)
    ensures |rules| == 7
  {
    [Captured(Always, "", ["ɲ", "ʎ"], "s", Always, "", "ʦ"),
     Ctx(Always, ["ɲ"], Ahead(Group(consonants)), "jn"),
     [Alt(Behind(Group(Kept(consonants, ["j"]))), "ɲ", Always, "jn"), Alt(Not(Behind(["j"])), "ɲ", AtEnd, "jn")],
     [Alt(Behind(Group(consonants)), "ʎ", Always, "l"), Alt(Always, "ʎ", AtEnd, "l")],
     Ctx(Always, ["j/aj", "j/ɛj", "j/ej"], Always, "/i") + Ctx(Always, ["jaj", "jɛj", "jej"], Always, "i"),
     Lit("w/ɔj", "/uj") + Lit("wɔj", "uj"),
     Suffix("a", "ə")]
  }

  /** The pattern of the j-glide rule: a palatal or affricate before a stressed a, æ or e that ends the word or is followed by a consonant and a vowel. */
  function GlideBeforeStressedA(consonants: Text, vowels: Text): Text
  {
    "(" + consonants + "ʲ|ʤ|ʧ)(?=/(?:a|æ|e)j?w?(?:" + consonants + "ʲ?" + vowels + "|$))"
  }

  /** A target vowel after the stressed vowel and its consonants: the post-tonic vowels the stage drops or reduces. */
  function AfterStressedSyllable(vowels: Text, consonants: Text, target: Text): Text
  {
    "(?<=/" + vowels + consonants + "*)" + target
  }

  /**
   * `to_early_old_french`. The stage removes 'ɟ' and 'ʣ' from the consonants
   * and 'æ', which it appends itself, from the vowels; `list.remove` raises
   * exactly when 'ɟ' or 'ʣ' is missing, and the lists keep what was done so
   * far. No æ is left in the word whose vowel the stage removes.
   */
  method ToEarlyOldFrench(inv: SymbolInventory, word: Text, rx: Engine, debug: bool) returns (r: Result<Text, Error>)
    modifies inv
    ensures "ɟ" !in old(inv.consonants) ==>
      r == Failure(ValueError("ɟ")) && inv.consonants == old(inv.consonants) && inv.vowels == old(inv.vowels)
    ensures "ɟ" in old(inv.consonants) && "ʣ" !in old(inv.consonants) ==>
      r == Failure(ValueError("ʣ")) &&
      inv.consonants == EarlyOldFrenchGrown(old(inv.consonants)) &&
      inv.vowels == RemoveFirst(old(inv.vowels) + ["æ"] + ["ə"], "æ")
    ensures "ɟ" in old(inv.consonants) && "ʣ" in old(inv.consonants) ==>
      r.Success? && 'æ' !in r.value &&
      inv.consonants == RemoveFirst(EarlyOldFrenchGrown(old(inv.consonants)), "ʣ") &&
      inv.vowels == RemoveFirst(old(inv.vowels) + ["æ"] + ["ə"], "æ")
  {
    DzKept(inv.consonants);
    var w := Chain(Affrication(inv.consonants), 0, word);
    var found := inv.Remove(Consonants, "ɟ");
    if !found {
      return Failure(ValueError("ɟ"));
    }
    w := Chain(JodPalatalization(inv.consonants, inv.vowels), 0, w);
    var c := Join(inv.consonants, []);
    w := Sub(rx, GlideBeforeStressedA(c, Join(inv.vowels, [])), "\\1j", w, debug);
    w := Apply(Lit("ʲ", ""), w);
    inv.Append(Consonants, "ʧ");
    w := Chain(SecondDiphthongization(inv.consonants, inv.vowels), 0, w);
    inv.Append(Vowels, "æ");
    w := Chain(BackRounding(inv.vowels), 0, w);
    w := Sub(rx, AfterStressedSyllable(Join(inv.vowels, []), Join(inv.consonants, []), Join(inv.vowels, ["a"])), "", w, debug);
    w := Chain(LVocalization(inv.consonants), 0, w);
    inv.Append(Consonants, "ɫ");
    w := Sub(rx, AfterStressedSyllable(Join(inv.vowels, []), Join(inv.consonants, []), Join(inv.vowels, [])), "ə", w, debug);
    inv.Append(Vowels, "ə");
    w := Chain(SecondLenition(inv.vowels), 0, w);
    inv.Append(Consonants, "ʧ");
    ghost var beforeFrontA := w;
    w := Chain(FrontA(), 0, w);
    found := inv.Remove(Vowels, "æ");
    // The ValueError `vowels.remove('æ')` raises on a missing symbol cannot happen: æ was appended above.
    assert found;
    var geminates := Kept(inv.consonants, ["r"]);
    w := CollapseSymbols(w, geminates);
    w := Chain(FinalDevoicing(), 0, w);
    inv.Append(Consonants, "θ");
    w := Apply(DzVoicing(), w);
    found := inv.Remove(Consonants, "ʣ");
    if !found {
      return Failure(ValueError("ʣ"));
    }
    EarlyOldFrenchEndsWithoutAe(beforeFrontA, geminates, inv.consonants);
    w := Chain(Depalatalization(inv.consonants), 0, w);
    r := Success(w);
  }

  /** ʣ > z except at the end of the word, where final devoicing has already made it ʦ. */
  function DzVoicing(): Rule
  {
    Ctx(Always, ["ʣ"], Not(AtEnd), "z")
  }

  /** From the front-a rules on, no rule of the stage writes an æ, and those rules remove every æ. */
  lemma EarlyOldFrenchEndsWithoutAe(w: Text, geminates: seq<Symbol>, consonants: seq<Symbol>)
    ensures 'æ' !in Chain(Depalatalization(consonants), 0,
                      Apply(DzVoicing(), Chain(FinalDevoicing(), 0, CollapseSymbols(Chain(FrontA(), 0, w), geminates))))
  {
    var w1 := Chain(FrontA(), 0, w);
    FrontARemovesAe(w);
    CollapseSymbolsMembers(w1, geminates);
    var w2 := CollapseSymbols(w1, geminates);
    FinalDevoicingKeepsOutAe(w2);
    var w3 := Chain(FinalDevoicing(), 0, w2);
    var rule := DzVoicing();
    assert rule == [Alt(Always, "ʣ", Not(AtEnd), "z")];
    KeepsOut(rule, w3, 'æ');
    DepalatalizationKeepsOutAe(consonants, Apply(rule, w3));
  }

  /** The consonants once ɟ is removed and ʧ, ɫ, ʧ, θ are appended, as the stage does before removing ʣ. */
  function EarlyOldFrenchGrown(c0: seq<Symbol>): seq<Symbol>
  {
    RemoveFirst(c0, "ɟ") + ["ʧ"] + ["ɫ"] + ["ʧ"] + ["θ"]
  }

  /** Gemination loss spares r: with r left out of the symbols, "rr" stays as it is. */
  lemma GeminationSparesR(consonants: seq<Symbol>)
    ensures CollapseSymbols("rr", Kept(consonants, ["r"])) == "rr"
  {
    var syms := Kept(consonants, ["r"]);
    KeptMembers(consonants, ["r"]);
    forall i, k | 0 <= i < 2 && 0 <= k < |syms|
      ensures !StartsAt("rr", syms[k] + syms[k], i)
    {
      var m := syms[k];
      assert m in syms;
      assert m != "r";
      if |m| == 1 {
        assert m == [m[0]];
        assert (m + m)[0] == m[0];
      }
    }
    CollapseSymbolsUnchanged("rr", syms);
  }

  /** ʣ is there to remove exactly when it was there at the start of the stage. */
  lemma DzKept(c0: seq<Symbol>)
    ensures "ʣ" in EarlyOldFrenchGrown(c0) <==> "ʣ" in c0
  {
    RemoveFirstMembers(c0, "ɟ");
    assert "ʣ" != "ɟ" && "ʣ" != "ʧ" && "ʣ" != "ɫ" && "ʣ" != "θ" by {
      assert "ʣ"[0] == 'ʣ';
    }
  }

  /** When the vowels held no æ, the one the stage appends is the one it removes: the vowels only gain ə. */
  lemma EarlyOldFrenchVowels(v0: seq<Symbol>)
    requires "æ" !in v0
    ensures RemoveFirst(v0 + ["æ"] + ["ə"], "æ") == v0 + ["ə"]
  {
    RemoveFirstSplit(v0, "æ", ["ə"]);
  }

  /** h and r survive Early Old French, which removes only ɟ and ʣ. */
  lemma EarlyOldFrenchKeepsHR(c: seq<Symbol>, y: Symbol)
    requires y == "h" || y == "r"
    requires y in c
    ensures y in RemoveFirst(EarlyOldFrenchGrown(c), "ʣ")
  {
    assert y != "ɟ" && y != "ʣ" by {
      assert y[0] != 'ɟ' && y[0] != 'ʣ';
    }
    RemoveFirstMembers(c, "ɟ");
    RemoveFirstMembers(EarlyOldFrenchGrown(c), "ʣ");
  }

  /** Final devoicing writes only voiceless consonants, so it brings back no æ. */
  lemma FinalDevoicingKeepsOutAe(w: Text)
    requires 'æ' !in w
    ensures 'æ' !in Chain(FinalDevoicing(), 0, w)
  {
    var rules := FinalDevoicing();
    forall j | 0 <= j < |rules|
      ensures !Writes(rules[j], 'æ')
    {
    }
    ChainKeepsOut(rules, 0, w, 'æ');
  }

  /** Depalatalization writes only ɲ, ʎ, ʦ, j, n, l, i, u, the schwa and stress marks, so it brings back no æ. */
  lemma DepalatalizationKeepsOutAe(consonants: seq<Symbol>, w: Text)
    requires 'æ' !in w
    ensures 'æ' !in Chain(Depalatalization(consonants), 0, w)
  {
    var rules := Depalatalization(consonants);
    forall j | 0 <= j < |rules|
      ensures !Writes(rules[j], 'æ')
    {
    }
    ChainKeepsOut(rules, 0, w, 'æ');
  }

  // ---------------------------------------------------------------------
  // Early Old French to Old French.

  /** Nasalization of low vowels; ej > oj, ow > ew, wɔ > wɛ unless nasal; a > ɑ before s, z. */
  function LowNasals(): (rules: seq<Rule>)
    ensures |rules| == 5
  {
    [Captured(Always, "", ["aw", "aj", "a", "ew", "ej", "e", "ow", "oj", "o", "ɛw", "ɛj", "ɛ", "ɔw", "ɔj", "ɔ", "ɑw", "ɑj", "ɑ"], "", Ahead(["m", "n", "ɲ"]), "", "~"),
     Ctx(Always, ["ej"], Not(Ahead(["~"])), "oj"),
     Ctx(Always, ["ow"], Not(Ahead(["p", "b", "v", "f", "m", "~"])), "ew"),
     Ctx(Always, ["w/ɔ"], Not(Ahead(["~"])), "w/ɛ") + Ctx(Always, ["wɔ"], Not(Ahead(["~"])), "wɛ"),
     Ctx(Always, ["a"], Ahead(["s", "z"]), "ɑ")]
  }

  /** θ and ð are lost, and an a left before a vowel reduces to ə. */
  function DentalFricativeLoss(vowels: seq<Symbol>): (rules: seq<Rule>)
    ensures |rules| == 2
  {
    [Lits(["θ", "ð"], ""), Ctx(Always, ["a"], Ahead(Group(vowels)), "ə")]
  }

  /** kʷ, gʷ lose their labialization; u fronts to y. */
  function Delabialization(): (rules: seq<Rule>)
    ensures |rules| == 3
  {
    [Lit("kʷ", "k"), Lit("gʷ", "g"), Lit("u", "y")]
  }

  /** Nasalization of e, ɛ (which open to a) and of high vowels; e, ɛ in hiatus > ə; final rn, rm > r. */
  function HighNasals(vowels: seq<Symbol>): (rules: seq<Rule>)
    ensures |rules| == 5
  {
    [Ctx(Not(Behind(["j"])), ["/e", "/ɛ"], Ahead(["~"]), "/a"),
     Ctx(Not(Behind(["j", "/"])), ["e", "ɛ"], Ahead(["~"]), "a"),
     Captured(Always, "", ["iw", "ij", "i", "uw", "uj", "u", "yw", "yj", "y"], "", Ahead(["m", "n", "ɲ"]), "", "~"),
     Ctx(Always, ["e", "ɛ"], Ahead(Product(["/"], Group(vowels)) + Product(["w/", "j/"], Group(vowels))), "ə"),
     Ctx(Always, ["rn", "rm"], AtEnd, "r")]
  }

  /** `to_old_french` */
  method ToOldFrench(inv: SymbolInventory, word: Text, rx: Engine, debug: bool) returns (w: Text)
    modifies inv
    ensures inv.consonants == Kept(Kept(old(inv.consonants), ["θ", "ð"]), ["kʷ", "gʷ"])
    ensures inv.vowels == old(inv.vowels) + ["ɑ"] + ["y"]
  {
    w := Sub(rx, "(?:f|p|k)(?=s$|t$)", "", word, debug);
    w := Chain(LowNasals(), 0, w);
    inv.Append(Vowels, "ɑ");
    w := Chain(DentalFricativeLoss(inv.vowels), 0, w);
    inv.Filter(Consonants, ["θ", "ð"]);
    w := Chain(Delabialization(), 0, w);
    inv.Filter(Consonants, ["kʷ", "gʷ"]);
    inv.Append(Vowels, "y");
    w := Chain(HighNasals(inv.vowels), 0, w);
  }

  /** h and r survive Old French, which filters out only θ, ð, kʷ and gʷ. */
  lemma OldFrenchKeepsHR(c: seq<Symbol>, y: Symbol)
    requires y == "h" || y == "r"
    requires y in c
    ensures y in Kept(Kept(c, ["θ", "ð"]), ["kʷ", "gʷ"])
  {
    assert y !in ["θ", "ð"] && y !in ["kʷ", "gʷ"] by {
      assert y[0] != 'θ' && y[0] != 'ð' && y[0] != 'k' && y[0] != 'g';
    }
    KeptMembers(c, ["θ", "ð"]);
    KeptMembers(Kept(c, ["θ", "ð"]), ["kʷ", "gʷ"]);
  }

  // ---------------------------------------------------------------------
  // Old French to Late Old French.

  /** o > u unless before j; ɔ > o before s, z; wɛ, ew > œ, with j before œ + ɫ; œ > ø before s, z, t. */
  function FrontRounding(): (rules: seq<Rule>)
    ensures |rules| == 6
  {
    [Ctx(Always, ["o"], Not(Ahead(["j"])), "u"),
     Ctx(Always, ["ɔ"], Ahead(["s", "z"]), "o"),
     Lit("w/ɛ", "/œ") + Lit("wɛ", "œ") + Lit("ew", "œ"),
     Ctx(Not(Behind(["m", "p", "b", "v", "f", "k", "g"])), ["/œ"], Ahead(["ɫ"]), "j/œ"),
     Ctx(Not(Behind(["m", "p", "b", "v", "f", "k", "g", "/"])), ["œ"], Ahead(["ɫ"]), "jœ"),
     Ctx(Always, ["œ"], Ahead(["s", "z", "t"]), "ø")]
  }

  /** yj > ɥi, and y before a vowel > ɥ. */
  function FrontGlide(vowels: seq<Symbol>): (rules: seq<Rule>)
    ensures |rules| == 2
  {
    [Lit("/yj", "ɥ/i") + Lit("yj", "ɥi"), Ctx(Always, ["y"], Ahead(Stressable(Group(vowels))), "ɥ")]
  }

  /** oj, ɔj > wɛ; aj > E (the open e of the later ai spelling). */
  function Monophthongs(): (rules: seq<Rule>)
    ensures |rules| == 2
  {
    [Ctx(Always, ["/oj", "/ɔj"], Always, "w/ɛ") + Ctx(Always, ["oj", "ɔj"], Always, "wɛ"), Lit("aj", "E")]
  }

  /** The affricates lose their stop: ʦ > s, ʧ > ʃ, ʤ > ʒ. */
  function Deaffrication(): (rules: seq<Rule>)
    ensures |rules| == 3
  {
    [Lit("ʦ", "s"), Lit("ʧ", "ʃ"), Lit("ʤ", "ʒ")]
  }

  /** ɫ vocalizes to w; s before a consonant becomes length ':'. */
  function LateVocalization(consonants: seq<Symbol>): (rules: seq<Rule>)
    ensures |rules| == 2
  {
    [Lit("ɫ", "w"), Ctx(Always, ["s"], Ahead(Group(Kept(consonants, ["j", "w", "ɥ"]))), ":")]
  }

  /** The affricates Late Old French drops, the fricatives they become, and its new front rounded vowels. */
  const Affricates: seq<Symbol> := ["ʦ", "ʧ", "ʤ"]
  const Postalveolars: seq<Symbol> := ["ʃ", "ʒ"]
  const FrontRounded: seq<Symbol> := ["ø", "œ"]

  /** `to_late_old_french` */
  method ToLateOldFrench(inv: SymbolInventory, word: Text, rx: Engine, debug: bool) returns (w: Text)
    modifies inv
    ensures inv.consonants == Kept(old(inv.consonants) + ["ɥ"], Affricates) + Postalveolars
    ensures inv.vowels == old(inv.vowels) + FrontRounded + ["E"]
    ensures "ʦ" !in inv.consonants && "ʧ" !in inv.consonants && "ʤ" !in inv.consonants
    ensures 'ʦ' !in w && 'ʧ' !in w && 'ʤ' !in w
  {
    w := Chain(FrontRounding(), 0, word);
    inv.Extend(Vowels, FrontRounded);
    w := Chain(FrontGlide(inv.vowels), 0, w);
    inv.Append(Consonants, "ɥ");
    w := Chain(Monophthongs(), 0, w);
    inv.Append(Vowels, "E");
    var c := Join(inv.consonants, ["j", "ɫ"]);
    w := Sub(rx, "e(?=" + c + "{2,}|" + c + "$)", "ɛ", w, debug);
    ghost var beforeDeaffrication := w;
    w := Chain(Deaffrication(), 0, w);
    AffricatesFiltered(inv.consonants);
    inv.Filter(Consonants, Affricates);
    inv.Extend(Consonants, Postalveolars);
    LateOldFrenchEndsWithoutAffricates(beforeDeaffrication, inv.consonants);
    w := Chain(LateVocalization(inv.consonants), 0, w);
  }

  /** h and r survive Late Old French, which filters out only the affricates. */
  lemma LateOldFrenchKeepsHR(c: seq<Symbol>, y: Symbol)
    requires y == "h" || y == "r"
    requires y in c
    ensures y in Kept(c + ["ɥ"], Affricates) + Postalveolars
  {
    assert y !in Affricates by {
      assert y[0] != 'ʦ' && y[0] != 'ʧ' && y[0] != 'ʤ';
    }
    assert y in c + ["ɥ"];
    KeptMembers(c + ["ɥ"], Affricates);
  }

  /** After deaffrication no affricate is left in the word. */
  lemma DeaffricationRemoves(w: Text)
    ensures 'ʦ' !in Chain(Deaffrication(), 0, w)
    ensures 'ʧ' !in Chain(Deaffrication(), 0, w)
    ensures 'ʤ' !in Chain(Deaffrication(), 0, w)
  {
    var rules := Deaffrication();
    assert rules == [Lit("ʦ", "s"), Lit("ʧ", "ʃ"), Lit("ʤ", "ʒ")];
    LitRewrites('ʦ', "s");
    LitRewrites('ʧ', "ʃ");
    LitRewrites('ʤ', "ʒ");
    ChainRemoves(rules, 0, 0, w, 'ʦ');
    ChainRemoves(rules, 0, 1, w, 'ʧ');
    ChainRemoves(rules, 0, 2, w, 'ʤ');
  }

  /** The last rules of the stage write only w and ':', so no affricate comes back. */
  lemma LateOldFrenchEndsWithoutAffricates(w: Text, consonants: seq<Symbol>)
    ensures 'ʦ' !in Chain(LateVocalization(consonants), 0, Chain(Deaffrication(), 0, w))
    ensures 'ʧ' !in Chain(LateVocalization(consonants), 0, Chain(Deaffrication(), 0, w))
    ensures 'ʤ' !in Chain(LateVocalization(consonants), 0, Chain(Deaffrication(), 0, w))
  {
    var w1 := Chain(Deaffrication(), 0, w);
    DeaffricationRemoves(w);
    var rules := LateVocalization(consonants);
    ChainKeepsOut(rules, 0, w1, 'ʦ');
    ChainKeepsOut(rules, 0, w1, 'ʧ');
    ChainKeepsOut(rules, 0, w1, 'ʤ');
  }

  /** Filtering drops every copy of the affricates, and the two fricatives appended after are not affricates. */
  lemma AffricatesFiltered(c: seq<Symbol>)
    ensures "ʦ" !in Kept(c, Affricates) + Postalveolars
    ensures "ʧ" !in Kept(c, Affricates) + Postalveolars
    ensures "ʤ" !in Kept(c, Affricates) + Postalveolars
  {
    KeptMembers(c, Affricates);
  }

  // ---------------------------------------------------------------------
  // Late Old French to Middle French.

  /** The rules of the Middle French stage, in order; the inventory is left alone. */
  function MiddleFrenchRules(vowels: seq<Symbol>): (rules: seq<Rule>)
    ensures |rules| == 10
  {
    [Lit("aw", "o"),
     Ctx(Not(Behind(["j"])), ["/ɛw"], Always, "/o"),
     Ctx(Not(Behind(["j", "/"])), ["ɛw"], Always, "o"),
     Lits(["ɛw", "ew", "œw"], "œ"),
     Ctx(Always, ["œ"], Ahead(["s", "z", "t"]), "ø"),
     Lit("uw", "u"),
     Lit("ej", "ɛ"),
     Lit("u~", "ɔ~"),
     Ctx(Always, ["~"], Ahead(Product(["n", "m", "ɲ"], Stressable(Group(vowels)) + ["j", "w"])), ""),
     Ctx(Behind(["~"]), ["n", "m", "ɲ"], Always, "")]
  }

  /** `to_middle_french`: the rules one after the other; stress marks stay where they are. */
  method ToMiddleFrench(inv: SymbolInventory, word: Text) returns (w: Text)
    ensures w == Chain(MiddleFrenchRules(inv.vowels), 0, word)
    ensures multiset(w)['/'] == multiset(word)['/']
  {
    w := Chain(MiddleFrenchRules(inv.vowels), 0, word);
    MiddleFrenchKeepsStress(inv.vowels, word);
  }

  /** Middle French moves no stress mark: each rule writes back every '/' it consumes. */
  lemma MiddleFrenchKeepsStress(vowels: seq<Symbol>, w: Text)
    ensures multiset(Chain(MiddleFrenchRules(vowels), 0, w))['/'] == multiset(w)['/']
  {
    var rules := MiddleFrenchRules(vowels);
    MiddleFrenchFirstBalanced(vowels);
    MiddleFrenchMiddleBalanced(vowels);
    MiddleFrenchLastBalanced(vowels);
    ChainPreservesCount(rules, 0, w, '/');
  }

  // Whether each Middle French rule is balanced for '/' is split over three
  // lemmas so that each stays within the solver's budget.

  /** The first three rules write back every stress mark they consume. */
  lemma MiddleFrenchFirstBalanced(vowels: seq<Symbol>)
    ensures forall k :: 0 <= k < 3 ==> Balanced(MiddleFrenchRules(vowels)[k], '/')
  {
    var rules := MiddleFrenchRules(vowels);
    forall k | 0 <= k < 3
      ensures Balanced(rules[k], '/')
    {
    }
  }

  /** So do the next four. */
  lemma MiddleFrenchMiddleBalanced(vowels: seq<Symbol>)
    ensures forall k :: 3 <= k < 7 ==> Balanced(MiddleFrenchRules(vowels)[k], '/')
  {
    var rules := MiddleFrenchRules(vowels);
    forall k | 3 <= k < 7
      ensures Balanced(rules[k], '/')
    {
    }
  }

  /** And the last three. */
  lemma MiddleFrenchLastBalanced(vowels: seq<Symbol>)
    ensures forall k :: 7 <= k < 10 ==> Balanced(MiddleFrenchRules(vowels)[k], '/')
  {
    var rules := MiddleFrenchRules(vowels);
    assert Balanced(rules[7], '/');
    assert Balanced(rules[8], '/');
    assert Balanced(rules[9], '/');
  }

  // ---------------------------------------------------------------------
  // Middle French to Early Modern French.

  /** l lost after i, u, y at the end; wɛ > wa unless nasal; ɔw > u; h is lost. */
  function LateLosses(): (rules: seq<Rule>)
    ensures |rules| == 4
  {
    [Ctx(Behind(["i", "u", "y"]), ["l"], AtEnd, ""),
     Ctx(Always, ["w/ɛ"], Not(Ahead(["~"])), "w/a") + Ctx(Always, ["wɛ"], Not(Ahead(["~"])), "wa"),
     Lit("ɔw", "u"),
     Lit("h", "")]
  }

  /** `to_early_modern_french`: fails exactly when 'h' is no longer a consonant. */
  method ToEarlyModernFrench(inv: SymbolInventory, word: Text, rx: Engine, debug: bool) returns (r: Result<Text, Error>)
    modifies inv
    ensures inv.vowels == old(inv.vowels)
    ensures inv.consonants == RemoveFirst(old(inv.consonants), "h")
    ensures r.Success? <==> "h" in old(inv.consonants)
    ensures r.Failure? ==> r.error == ValueError("h")
    ensures r.Success? ==> 'h' !in r.value
  {
    var w := Apply(Lit(":", ""), word);
    w := Sub(rx, Join(inv.consonants, ["f", "k", "r", "l", "j", "w", "ɥ"]) + "+$", "", w, debug);
    LateLossesRemoveH(w);
    w := Chain(LateLosses(), 0, w);
    var found := inv.Remove(Consonants, "h");
    if !found {
      return Failure(ValueError("h"));
    }
    r := Success(w);
  }

  lemma LateLossesRemoveH(w: Text)
    ensures 'h' !in Chain(LateLosses(), 0, w)
  {
    var rules := LateLosses();
    assert rules[3] == Lit("h", "");
    LitRewrites('h', "");
    ChainRemoves(rules, 0, 3, w, 'h');
  }

  // ---------------------------------------------------------------------
  // Early Modern French to Modern French.

  /** The rules of the Modern French stage; the first, r > ʁ, runs before the inventory changes. */
  function ModernFrenchRules(): (rules: seq<Rule>)
    ensures |rules| == 10
  {
    [Lit("r", "ʁ"),
     Lit("ʎ", "j"),
     Lit("ə", ""),
     Ctx(Always, ["i", "e", "y"], Ahead(["~"]), "ɛ"),
     Lit("ɑ", "a"),
     Lit("a~", "ɑ~"),
     Suffix("ɔ", "o"),
     Suffix("ɛ", "e"),
     Suffix("œ", "ø"),
     Lit("E", "ɛ")]
  }

  const ModernReplacements: seq<Text> := ["ʁ", "j", "", "ɛ", "a", "ɑ~", "o", "e", "ø"]

  /** What the Modern French rules write in place of what they match. */
  lemma ModernFrenchReplacements()
    ensures WritesFrom(ModernFrenchRules(), 0, ModernReplacements)
  {
    var rules: seq<Rule> := ModernFrenchRules();
    forall j | 0 <= j < |rules|
      ensures forall k :: 0 <= k < |rules[j]| ==> rules[j][k].rep in ModernReplacements
    {
    }
  }

  /** No r, ʎ, ə or E survives the Modern French rules: each has a rule of its own, and no later rule writes it. */
  lemma ModernFrenchRemoves(w: Text, c: char)
    requires c in "rʎəE"
    ensures c !in Chain(ModernFrenchRules(), 0, w)
  {
    var rules := ModernFrenchRules();
    ModernFrenchReplacements();
    if c == 'r' {
      ChainRemovesLit(rules, 0, 0, w, 'r', "ʁ", ModernReplacements);
    } else if c == 'ʎ' {
      ChainRemovesLit(rules, 0, 1, w, 'ʎ', "j", ModernReplacements);
    } else if c == 'ə' {
      ChainRemovesLit(rules, 0, 2, w, 'ə', "", ModernReplacements);
    } else {
      ChainRemovesLit(rules, 0, 9, w, 'E', "ɛ", ModernReplacements);
    }
  }

  /** The Modern French rules never bring back an h. */
  lemma ModernFrenchKeepsOutH(w: Text)
    requires 'h' !in w
    ensures 'h' !in Chain(ModernFrenchRules(), 0, w)
  {
    var rules := ModernFrenchRules();
    ModernFrenchReplacements();
    NoneWrites(rules, 0, ModernReplacements, 'h');
    ChainKeepsOut(rules, 0, w, 'h');
  }

  /**
   * `to_modern_french`: r becomes ʁ in the word and in the consonants, and
   * E leaves the vowels; it fails when 'r' is not a consonant, and after the
   * consonants have changed, when 'E' is not a vowel.
   */
  method ToModernFrench(inv: SymbolInventory, word: Text) returns (r: Result<Text, Error>)
    modifies inv
    ensures "r" !in old(inv.consonants) ==>
      r == Failure(ValueError("r")) && inv.consonants == old(inv.consonants) && inv.vowels == old(inv.vowels)
    ensures "r" in old(inv.consonants) ==>
      inv.consonants == RemoveFirst(old(inv.consonants), "r") + ["ʁ"] &&
      inv.vowels == RemoveFirst(old(inv.vowels), "E")
    ensures "r" in old(inv.consonants) && "E" !in old(inv.vowels) ==> r == Failure(ValueError("E"))
    ensures "r" in old(inv.consonants) && "E" in old(inv.vowels) ==>
      r == Success(Chain(ModernFrenchRules(), 0, word))
  {
    var rules := ModernFrenchRules();
    var w := Apply(rules[0], word);
    var found := inv.Remove(Consonants, "r");
    if !found {
      return Failure(ValueError("r"));
    }
    inv.Append(Consonants, "ʁ");
    w := Chain(rules, 1, w);
    found := inv.Remove(Vowels, "E");
    if !found {
      return Failure(ValueError("E"));
    }
    r := Success(w);
  }

  // ---------------------------------------------------------------------
  // The whole history.

  /** The consonants after the two Romance stages hold ɟ and ʣ, which Early Old French removes, and h and r, which come later. */
  lemma RomanceConsonants()
    ensures "ɟ" in LatinConsonants + ["kʷ", "gʷ"] + ["ɟ"] + ["ʦ"] + ["ð", "ʣ"] + ["ɲ", "ʎ"]
    ensures "ʣ" in LatinConsonants + ["kʷ", "gʷ"] + ["ɟ"] + ["ʦ"] + ["ð", "ʣ"] + ["ɲ", "ʎ"]
    ensures "h" in LatinConsonants + ["kʷ", "gʷ"] + ["ɟ"] + ["ʦ"] + ["ð", "ʣ"] + ["ɲ", "ʎ"]
    ensures "r" in LatinConsonants + ["kʷ", "gʷ"] + ["ɟ"] + ["ʦ"] + ["ð", "ʣ"] + ["ɲ", "ʎ"]
  {
    var c := LatinConsonants + ["kʷ", "gʷ"] + ["ɟ"] + ["ʦ"] + ["ð", "ʣ"] + ["ɲ", "ʎ"];
    assert c[4] == "h" && c[11] == "r" && c[19] == "ɟ" && c[22] == "ʣ";
  }

  /** Removing h leaves r. */
  lemma RKeptWithoutH(c: seq<Symbol>)
    requires "r" in c
    ensures "r" in RemoveFirst(c, "h")
  {
    assert "r" != "h" by {
      assert "r"[0] != "h"[0];
    }
    RemoveFirstMembers(c, "h");
  }

  /**
   * `evolve`: resets the inventory and runs the eight stages in order. Every
   * `list.remove` finds its symbol, so no stage raises (each `.value` below is
   * taken from a success); the word ends without r, ʎ, ə, E or h, and r has
   * become ʁ among the consonants.
   */
  method Evolve(inv: SymbolInventory, word: Text, rx: Engine, debug: bool) returns (w: Text)
    modifies inv
    ensures "ʁ" in inv.consonants
    ensures 'r' !in w && 'ʎ' !in w && 'ə' !in w && 'E' !in w && 'h' !in w
  {
    inv.Reset();
    w := ToProtoWesternRomance(inv, word, rx, debug);
    w := ToProtoGalloIberoRomance(inv, w, rx, debug);
    RomanceConsonants();
    ghost var c := inv.consonants;
    EarlyOldFrenchKeepsHR(c, "h");
    EarlyOldFrenchKeepsHR(c, "r");
    var r := ToEarlyOldFrench(inv, w, rx, debug);
    w := r.value;
    c := inv.consonants;
    OldFrenchKeepsHR(c, "h");
    OldFrenchKeepsHR(c, "r");
    w := ToOldFrench(inv, w, rx, debug);
    c := inv.consonants;
    LateOldFrenchKeepsHR(c, "h");
    LateOldFrenchKeepsHR(c, "r");
    w := ToLateOldFrench(inv, w, rx, debug);
    assert "E" in inv.vowels;
    w := ToMiddleFrench(inv, w);
    RKeptWithoutH(inv.consonants);
    r := ToEarlyModernFrench(inv, w, rx, debug);
    w := r.value;
    r := ToModernFrench(inv, w);
    ModernFrenchRemoves(w, 'r');
    ModernFrenchRemoves(w, 'ʎ');
    ModernFrenchRemoves(w, 'ə');
    ModernFrenchRemoves(w, 'E');
    ModernFrenchKeepsOutH(w);
    w := r.value;
  }
}
