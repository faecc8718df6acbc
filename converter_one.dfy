/**
 * The first converter, french-converter.py: the spelling preparation that
 * `evolve` applies before the stages, the ten-to-seven vowel reduction of the
 * Western Romance stage, and the gemination losses and final devoicing of the
 * Proto-French and Old French stages.
 */
module ConverterOne {
  import opened Rewrite
  import opened Gemination
  import opened Chunks

  /** `[aeiou!]`, the lookahead the preparation rules share. */
  const VowelOrStress: Look := Ahead(Chars("aeiou!"))

  /** The spelling preparation of `evolve`: a chain of one-pass rewrites. */
  function Prep(word: Text): Text
  {
    var w := Apply(Lit("c", "k"), word);
    var w := Apply(Lit("x", "ks"), w);
    var w := Apply(Lit("qu", "K"), w);
    var w := Apply(Ctx(Always, ["gu"], VowelOrStress, "G"), w);
    var w := Apply(Lit("y", "i"), w);
    var w := Apply(GlideI(), w);
    var w := Apply(GlideU(), w);
    Apply(FricativeU(), w)
  }

  /** `(!?)i(?=[aeiou!])` → `j\1`: the optional stress mark is tried first, as the greedy `!{0,1}` does. */
  function GlideI(): Rule
  {
    [Alt(Always, "!i", VowelOrStress, "j!"), Alt(Always, "i", VowelOrStress, "j")]
  }

  /** `(?<![eiou:])(!?)u(?=[aeiou!])` → `w\1`. */
  function GlideU(): Rule
  {
    var pre := Not(Behind(Chars("eiou:")));
    [Alt(pre, "!u", VowelOrStress, "w!"), Alt(pre, "u", VowelOrStress, "w")]
  }

  /** `(!?)u(?=[aeiou!])` → `v\1`. */
  function FricativeU(): Rule
  {
    [Alt(Always, "!u", VowelOrStress, "v!"), Alt(Always, "u", VowelOrStress, "v")]
  }

  /** The rules of the preparation, in order. */
  function PrepRules(): (rules: seq<Rule>)
  {
    [Lit("c", "k"), Lit("x", "ks"), Lit("qu", "K"), Ctx(Always, ["gu"], VowelOrStress, "G"),
     Lit("y", "i"), GlideI(), GlideU(), FricativeU()]
  }

  lemma PrepIsChain(word: Text)
    ensures Prep(word) == Chain(PrepRules(), 0, word)
  {
  }

  /**
   * After the preparation the word holds no 'c', 'x' or 'y': each is
   * rewritten everywhere by its own rule, and no later rule writes one back.
   */
  lemma PrepSpelling(word: Text)
    ensures 'c' !in Prep(word) && 'x' !in Prep(word) && 'y' !in Prep(word)
  {
    var rules: seq<Rule> := PrepRules();
    PrepIsChain(word);
    PrepRulesWrite();
    ChainRemoves(rules, 0, 0, word, 'c');
    ChainRemoves(rules, 0, 1, word, 'x');
    ChainRemoves(rules, 0, 4, word, 'y');
  }

  /** Which preparation rules rewrite, and which write, 'c', 'x' and 'y'. */
  lemma PrepRulesWrite()
    ensures Rewrites(PrepRules()[0], 'c') && Rewrites(PrepRules()[1], 'x') && Rewrites(PrepRules()[4], 'y')
    ensures forall j :: 0 <= j < |PrepRules()| ==> !Writes(PrepRules()[j], 'c')
    ensures forall j :: 1 <= j < |PrepRules()| ==> !Writes(PrepRules()[j], 'x')
    ensures forall j :: 4 <= j < |PrepRules()| ==> !Writes(PrepRules()[j], 'y')
  {
    var rules: seq<Rule> := PrepRules();
    assert rules[0][0].pat == ['c'] && rules[1][0].pat == ['x'] && rules[4][0].pat == ['y'];
  }

  /** The stress marks '!' are all kept, only moved past the glides. */
  lemma PrepKeepsStress(word: Text)
    ensures multiset(Prep(word))['!'] == multiset(word)['!']
  {
    PrepIsChain(word);
    PrepRulesBalanced();
    ChainPreservesCount(PrepRules(), 0, word, '!');
  }

  lemma PrepRulesBalanced()
    ensures forall j :: 0 <= j < |PrepRules()| ==> Balanced(PrepRules()[j], '!')
  {
    SpellingBalanced();
    GlidesBalanced();
    var rules := PrepRules();
    assert rules[5] == GlideI() && rules[6] == GlideU() && rules[7] == FricativeU();
  }

  /** The five spelling rules neither match nor write a stress mark. */
  lemma SpellingBalanced()
    ensures forall j :: 0 <= j < 5 ==> Balanced(PrepRules()[j], '!')
  {
  }

  /** Each glide rule writes back the stress mark it matches. */
  lemma GlidesBalanced()
    ensures Balanced(GlideI(), '!') && Balanced(GlideU(), '!') && Balanced(FricativeU(), '!')
  {
  }

  // ---------------------------------------------------------------------
  // Western Romance: the ten Latin vowels (short, and long with ':') fall to seven.

  /** `[aeiou:]`: the characters a vowel chunk is made of. */
  const VowelChunk: CharClass := OneOf({'a', 'e', 'i', 'o', 'u', ':'})

  const WesternTable: map<Text, Text> := map[
    "a" := "a", "a:" := "a", "ae" := "E", "au" := "aw", "e" := "E", "e:" := "e",
    "i" := "e", "i:" := "i", "o" := "O", "o:" := "o", "oe" := "e", "u" := "o", "u:" := "u"]

  function ReduceVowels(word: Text): Text
  {
    ChunkLookup(word, VowelChunk, WesternTable)
  }

  /**
   * The vowel reduction cuts the word into the greedy chunks and looks each
   * one up: a chunk that is a table key becomes its value, any other chunk
   * and every other character is kept. Both the cutting and the rendering
   * are unique: any greedy cutting of the word is this one.
   */
  lemma ReduceVowelsByChunks(word: Text, ts: seq<Token>)
    requires Greedy(ts, VowelChunk) && Flatten(ts) == word
    ensures ReduceVowels(word) == Render(ts, WesternTable)
  {
    TokensUnique(ts, word, VowelChunk);
    ChunkLookupRenders(word, VowelChunk, WesternTable);
  }

  /** The diphthongs: ae merges to E, au becomes aw. */
  lemma WesternTableDiphthongs()
    ensures ReduceVowels("ae") == "E"
    ensures ReduceVowels("au") == "aw"
  {
    assert "ae"[..2] == "ae" && "ae"[2..] == [];
    assert "au"[..2] == "au" && "au"[2..] == [];
  }

  /** Length: long a shortens, short u lowers to o, long u stays u. */
  lemma WesternTableLength()
    ensures ReduceVowels("a:") == "a"
    ensures ReduceVowels("u") == "o"
    ensures ReduceVowels("u:") == "u"
  {
    assert "a:"[..2] == "a:" && "a:"[2..] == [];
    assert "u"[..1] == "u" && "u"[1..] == [];
    assert "u:"[..2] == "u:" && "u:"[2..] == [];
  }

  /** A chunk that is not a key ("ea") is kept as it is. */
  lemma WesternTableKeepsOthers()
    ensures ReduceVowels("ea") == "ea"
  {
    assert "ea"[..2] == "ea" && "ea"[2..] == [];
    assert "ea" !in WesternTable;
  }

  /** The chunks are taken greedily from the left: "aea" is "ae" then "a", never "a" then "ea". */
  lemma GreedyFromTheLeft()
    ensures ReduceVowels("aea") == "Ea"
  {
    var s := "aea";
    assert s[..2] == "ae" && s[2..] == "a";
    assert "a"[..1] == "a" && "a"[1..] == [];
  }

  // ---------------------------------------------------------------------
  // Proto-French.

  /**
   * `([pbtdkg])\1` → `\1`: geminate stops become single. The word never
   * grows, keeps the same letters, and is left as it is when no stop is doubled.
   */
  function SingleStops(word: Text): (r: Text)
    ensures |r| <= |word|
    ensures forall c :: c in r <==> c in word
    ensures NoClassPair(word, OneOf({'p', 'b', 't', 'd', 'k', 'g'})) ==> r == word
  {
    var stops := OneOf({'p', 'b', 't', 'd', 'k', 'g'});
    CollapsePairsMembers(word, stops);
    if NoClassPair(word, stops) then CollapseUnchanged(word, stops); CollapsePairs(word, stops)
    else CollapsePairs(word, stops)
  }

  /** A doubled stop collapses, a doubled 's' stays. */
  lemma SingleStopsExamples()
    ensures SingleStops("tt") == "t"
    ensures SingleStops("ss") == "ss"
  {
    assert "tt"[2..] == [];
    OutsideClassKept('s', OneOf({'p', 'b', 't', 'd', 'k', 'g'}));
    assert ['s', 's'] == "ss";
  }

  /** `lookup` of the devoicing rule: the voiced obstruents b, d, g, v, z, D and their voiceless partners. */
  const Voiced: set<char> := {'b', 'd', 'g', 'v', 'z', 'D'}

  function Voiceless(c: char): (v: char)
    requires c in Voiced
    ensures v in {'p', 't', 'k', 'f', 's', 'T'}
  {
    match c
    case 'b' => 'p'
    case 'd' => 't'
    case 'g' => 'k'
    case 'v' => 'f'
    case 'z' => 's'
    case _ => 'T'
  }

  const FinalVowels: set<char> := {'a', 'e', 'i', 'o', 'u', 'E', 'O'}

  /** `(?=[^aeiouEO]{0,}$)` at position i: no vowel anywhere from i on. */
  predicate NoVowelFrom(s: Text, i: nat)
  {
    forall j :: i <= j < |s| ==> s[j] !in FinalVowels
  }

  /** Whether the character at position i is devoiced. */
  predicate Devoiced(s: Text, i: nat)
    requires i < |s|
  {
    s[i] in Voiced && NoVowelFrom(s, i + 1)
  }

  lemma DevoicedInTail(s: Text, i: nat)
    requires 1 <= i < |s|
    ensures Devoiced(s, i) <==> Devoiced(s[1..], i - 1)
  {
    if !NoVowelFrom(s[1..], i) {
      var j :| i <= j < |s[1..]| && s[1..][j] in FinalVowels;
      assert s[j + 1] == s[1..][j];
    }
    if !NoVowelFrom(s, i + 1) {
      var j :| i + 1 <= j < |s| && s[j] in FinalVowels;
      assert s[1..][j - 1] == s[j];
    }
  }

  /** The character at position i after devoicing. */
  function DevoiceAt(s: Text, i: nat): char
    requires i < |s|
  {
    if Devoiced(s, i) then Voiceless(s[i]) else s[i]
  }

  /**
   * `[bdgvzD](?=[^aeiouEO]{0,}$)` → the voiceless partner: every voiced
   * obstruent with no vowel after it is devoiced; each character is judged on
   * the input, so the single pass is a pointwise map.
   */
  function DevoiceFinal(s: Text): (r: Text)
    ensures |r| == |s|
    ensures forall i :: 0 <= i < |s| ==> r[i] == DevoiceAt(s, i)
    decreases |s|
  {
    if s == [] then []
    else
      var rest := DevoiceFinal(s[1..]);
      assert forall i :: 1 <= i < |s| ==> DevoiceAt(s, i) == DevoiceAt(s[1..], i - 1) by {
        forall i | 1 <= i < |s|
          ensures DevoiceAt(s, i) == DevoiceAt(s[1..], i - 1)
        {
          DevoicedInTail(s, i);
        }
      }
      [DevoiceAt(s, 0)] + rest
  }

  lemma VoicedNotVowel(c: char)
    requires c in Voiced
    ensures c !in FinalVowels && Voiceless(c) !in FinalVowels && Voiceless(c) !in Voiced
  {
  }

  /** Every vowel stays where it is, and no vowel is created. */
  lemma DevoiceKeepsVowels(s: Text, i: nat)
    requires i < |s|
    ensures DevoiceFinal(s)[i] in FinalVowels <==> s[i] in FinalVowels
  {
    assert DevoiceFinal(s)[i] == DevoiceAt(s, i);
    if s[i] in Voiced {
      VoicedNotVowel(s[i]);
    }
  }

  /** Devoicing a second time changes nothing: no voiceless partner is itself voiced. */
  lemma DevoiceIdempotent(s: Text)
    ensures DevoiceFinal(DevoiceFinal(s)) == DevoiceFinal(s)
  {
    var r := DevoiceFinal(s);
    forall i | 0 <= i < |r|
      ensures DevoiceAt(r, i) == r[i]
    {
      DevoiceTwiceAt(s, i);
    }
  }

  /** At each position, the devoiced text is left as it is by a second devoicing. */
  lemma DevoiceTwiceAt(s: Text, i: nat)
    requires i < |s|
    ensures !Devoiced(DevoiceFinal(s), i)
  {
    var r := DevoiceFinal(s);
    if Devoiced(s, i) {
      VoicedNotVowel(s[i]);
    } else if s[i] in Voiced {
      var j :| i + 1 <= j < |s| && s[j] in FinalVowels;
      DevoiceKeepsVowels(s, j);
    }
  }

  /** The characters up to and including the last vowel are untouched. */
  lemma DevoiceOnlyAfterLastVowel(s: Text, k: nat)
    requires k < |s| && s[k] in FinalVowels
    ensures DevoiceFinal(s)[..k + 1] == s[..k + 1]
  {
    var r := DevoiceFinal(s);
    forall i | 0 <= i <= k
      ensures r[i] == s[i]
    {
      BeforeVowelKept(s, i, k);
    }
  }

  /** A character at or before a vowel is not devoiced. */
  lemma BeforeVowelKept(s: Text, i: nat, k: nat)
    requires i <= k < |s| && s[k] in FinalVowels
    ensures !Devoiced(s, i)
  {
    if i == k {
      if s[i] in Voiced {
        VoicedNotVowel(s[i]);
      }
    }
  }

  /** A final voiced consonant cluster devoices as a whole: "ardz" becomes "arts". */
  lemma DevoiceExample()
    ensures DevoiceFinal("ardz") == "arts"
  {
    var s := "ardz";
    var r := DevoiceFinal(s);
    assert !Devoiced(s, 0);
    assert Devoiced(s, 2) && Devoiced(s, 3);
    assert r[2] == 't' && r[3] == 's';
  }

  // ---------------------------------------------------------------------
  // Old French.

  /** `[^aeiouyEOX]`: anything but a vowel. */
  const NonVowel: CharClass := NoneOf({'a', 'e', 'i', 'o', 'u', 'y', 'E', 'O', 'X'})

  /**
   * `([^aeiouyEOX])\1` → `\1`: every doubled non-vowel collapses. The word
   * never grows, keeps the same letters, and is left as it is when no
   * consonant is doubled.
   */
  function SingleConsonants(word: Text): (r: Text)
    ensures |r| <= |word|
    ensures forall c :: c in r <==> c in word
    ensures NoClassPair(word, NonVowel) ==> r == word
  {
    CollapsePairsMembers(word, NonVowel);
    if NoClassPair(word, NonVowel) then CollapseUnchanged(word, NonVowel); CollapsePairs(word, NonVowel)
    else CollapsePairs(word, NonVowel)
  }

  /** Three of a consonant become two, since the pass never overlaps; doubled vowels stay. */
  lemma SingleConsonantsExamples()
    ensures SingleConsonants("sss") == "ss"
    ensures SingleConsonants("ee") == "ee"
  {
    assert "sss" == Repeat('s', 3) + "";
    CollapseRun('s', 3, "", NonVowel);
    assert Repeat('s', 2) == "ss";
    OutsideClassKept('e', NonVowel);
    assert ['e', 'e'] == "ee";
  }
}
