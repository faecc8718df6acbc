/**
 * Greedy chunk-and-lookup substitution: `re.sub("[class]{1,2}", lambda m:
 * table.get(m.group(), m.group()), word)`. The word is cut, left to right,
 * into runs of one or two class characters (two whenever two are there) and
 * single other characters; each chunk that is a key of the table is replaced
 * by its value, every other chunk and character is kept.
 */
module Chunks {
  import opened Rewrite

  datatype Token = Chunk(text: Text) | Other(c: char)

  function TokenText(t: Token): Text
  {
    match t
    case Chunk(x) => x
    case Other(c) => [c]
  }

  function Flatten(ts: seq<Token>): Text
  {
    if ts == [] then [] else TokenText(ts[0]) + Flatten(ts[1..])
  }

  /** A token a `[class]{1,2}` scan can produce: one or two class characters, or one other character. */
  predicate GoodToken(t: Token, cc: CharClass)
  {
    match t
    case Chunk(x) => 1 <= |x| <= 2 && forall i :: 0 <= i < |x| ==> cc.Has(x[i])
    case Other(c) => !cc.Has(c)
  }

  /**
   * A tokenization the greedy scan produces: good tokens, and a one-character
   * chunk only where no class character follows it.
   */
  predicate Greedy(ts: seq<Token>, cc: CharClass)
  {
    (forall i :: 0 <= i < |ts| ==> GoodToken(ts[i], cc)) &&
    (forall i :: 0 <= i < |ts| - 1 && ts[i].Chunk? && |ts[i].text| == 1 ==> ts[i + 1].Other?)
  }

  /** The chunks the regular-expression engine matches, and the characters between them. */
  function Tokens(s: Text, cc: CharClass): (ts: seq<Token>)
    ensures Flatten(ts) == s
    ensures Greedy(ts, cc)
    ensures |s| > 0 ==> |ts| > 0 && (ts[0].Other? <==> !cc.Has(s[0]))
    decreases |s|
  {
    if s == [] then []
    else if !cc.Has(s[0]) then
      var rest := Tokens(s[1..], cc);
      TokenCons(Other(s[0]), rest, s, cc);
      [Other(s[0])] + rest
    else if |s| >= 2 && cc.Has(s[1]) then
      var rest := Tokens(s[2..], cc);
      TokenCons(Chunk(s[..2]), rest, s, cc);
      [Chunk(s[..2])] + rest
    else
      var rest := Tokens(s[1..], cc);
      assert |s| >= 2 ==> s[1..][0] == s[1];
      TokenCons(Chunk(s[..1]), rest, s, cc);
      [Chunk(s[..1])] + rest
  }

  /** A good token put before a greedy tokenization of the rest of s gives one of s. */
  lemma TokenCons(t: Token, rest: seq<Token>, s: Text, cc: CharClass)
    requires GoodToken(t, cc) && Greedy(rest, cc)
    requires t.Chunk? && |t.text| == 1 && |rest| > 0 ==> rest[0].Other?
    requires |TokenText(t)| <= |s| && s == TokenText(t) + Flatten(rest)
    ensures Flatten([t] + rest) == s
    ensures Greedy([t] + rest, cc)
  {
    assert ([t] + rest)[1..] == rest;
    var ts := [t] + rest;
    forall i | 0 <= i < |ts|
      ensures GoodToken(ts[i], cc)
    {
      if i > 0 {
        assert ts[i] == rest[i - 1];
      }
    }
  }

  /** The greedy tokenization is the only one: any greedy cutting of s is Tokens(s). */
  lemma {:induction false} TokensUnique(ts: seq<Token>, s: Text, cc: CharClass)
    requires Greedy(ts, cc) && Flatten(ts) == s
    ensures ts == Tokens(s, cc)
    decreases |ts|
  {
    if ts != [] {
      var t := ts[0];
      var n := |TokenText(t)|;
      assert s == TokenText(t) + Flatten(ts[1..]);
      assert Greedy(ts[1..], cc) by {
        forall i | 0 <= i < |ts[1..]|
          ensures GoodToken(ts[1..][i], cc)
        {
          assert ts[1..][i] == ts[i + 1];
        }
        forall i | 0 <= i < |ts[1..]| - 1 && ts[1..][i].Chunk? && |ts[1..][i].text| == 1
          ensures ts[1..][i + 1].Other?
        {
          assert ts[1..][i] == ts[i + 1] && ts[1..][i + 1] == ts[i + 2];
        }
      }
      assert s[n..] == Flatten(ts[1..]);
      TokensUnique(ts[1..], s[n..], cc);
      assert GoodToken(ts[0], cc);
      match t
      case Other(c) =>
        assert s[0] == c;
      case Chunk(x) =>
        assert s[0] == x[0] && cc.Has(s[0]);
        if |x| == 2 {
          assert s[1] == x[1] && cc.Has(s[1]);
          assert s[..2] == x;
        } else {
          assert s[..1] == x;
          if |s| >= 2 {
            assert |ts| > 1;
            assert ts[1].Other?;
            assert TokenText(ts[1]) == [ts[1].c];
            assert Flatten(ts[1..]) == [ts[1].c] + Flatten(ts[2..]);
            assert s[1] == ts[1].c;
            assert GoodToken(ts[1], cc);
          }
        }
    }
  }

  /** `table.get(chunk, chunk)` for a chunk; other characters pass through. */
  function Translate(t: Token, table: map<Text, Text>): Text
  {
    match t
    case Chunk(x) => if x in table then table[x] else x
    case Other(c) => [c]
  }

  function Render(ts: seq<Token>, table: map<Text, Text>): Text
  {
    if ts == [] then [] else Translate(ts[0], table) + Render(ts[1..], table)
  }

  /** The substitution as the engine performs it, scanning the word once. */
  function ChunkLookup(s: Text, cc: CharClass, table: map<Text, Text>): Text
    decreases |s|
  {
    if s == [] then []
    else if !cc.Has(s[0]) then [s[0]] + ChunkLookup(s[1..], cc, table)
    else
      var n := if |s| >= 2 && cc.Has(s[1]) then 2 else 1;
      var x := s[..n];
      (if x in table then table[x] else x) + ChunkLookup(s[n..], cc, table)
  }

  /** The one-pass substitution is the greedy tokenization with each token looked up. */
  lemma {:induction false} ChunkLookupRenders(s: Text, cc: CharClass, table: map<Text, Text>)
    ensures ChunkLookup(s, cc, table) == Render(Tokens(s, cc), table)
    decreases |s|
  {
    if s != [] {
      var n := if !cc.Has(s[0]) then 1 else if |s| >= 2 && cc.Has(s[1]) then 2 else 1;
      var ts := Tokens(s, cc);
      assert ts[1..] == Tokens(s[n..], cc);
      ChunkLookupRenders(s[n..], cc, table);
    }
  }

  /** A word without a class character comes back unchanged. */
  lemma {:induction false} NoChunkUnchanged(s: Text, cc: CharClass, table: map<Text, Text>)
    requires forall i :: 0 <= i < |s| ==> !cc.Has(s[i])
    ensures ChunkLookup(s, cc, table) == s
    decreases |s|
  {
    if s != [] {
      assert !cc.Has(s[0]);
      NoChunkUnchanged(s[1..], cc, table);
      assert s == [s[0]] + s[1..];
    }
  }

  /** A table that maps every key to itself changes nothing. */
  lemma {:induction false} IdentityTable(s: Text, cc: CharClass, table: map<Text, Text>)
    requires forall x :: x in table ==> table[x] == x
    ensures ChunkLookup(s, cc, table) == s
    decreases |s|
  {
    if s != [] {
      if !cc.Has(s[0]) {
        IdentityTable(s[1..], cc, table);
        assert s == [s[0]] + s[1..];
      } else {
        var n := if |s| >= 2 && cc.Has(s[1]) then 2 else 1;
        IdentityTable(s[n..], cc, table);
        assert s == s[..n] + s[n..];
      }
    }
  }
}
