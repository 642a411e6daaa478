/**
 * The sentence parser's own logic: cleaning the tokens of a sentence, and
 * finding the noun-phrase chunks of a parse tree, the NP subtrees that hold no
 * smaller NP.
 */
module Parser {

  /** A parse tree: an inner node with a label and children, or a word at a leaf. */
  datatype Tree = Node(tag: string, children: seq<Tree>) | Leaf(word: string)

  // ---------------------------------------------------------------------------
  // preprocess

  /** `c.isalpha()` on ASCII characters. */
  predicate IsAlpha(c: char) {
    'a' <= c <= 'z' || 'A' <= c <= 'Z'
  }

  /** `any(char.isalpha() for char in word)`. */
  predicate HasAlpha(word: string) {
    exists k | 0 <= k < |word| :: IsAlpha(word[k])
  }

  /** `c.lower()` on ASCII characters. */
  function LowerChar(c: char): char {
    if 'A' <= c <= 'Z' then (c as int + 32) as char else c
  }

  /** `s.lower()`: every upper-case letter replaced by its lower-case form. */
  function Lower(s: string): (r: string)
    ensures |r| == |s|
    ensures forall k | 0 <= k < |s| :: r[k] == LowerChar(s[k]) && !('A' <= r[k] <= 'Z')
  {
    if s == [] then [] else Lower(s[..|s| - 1]) + [LowerChar(s[|s| - 1])]
  }

  /** The list comprehension of `preprocess`: the words holding a letter, in order. */
  function KeepAlphabetic(words: seq<string>): (r: seq<string>)
    ensures |r| <= |words|
  {
    if words == [] then []
    else KeepAlphabetic(words[..|words| - 1]) + (if HasAlpha(words[|words| - 1]) then [words[|words| - 1]] else [])
  }

  /** A word is kept exactly when it is one of the words and holds a letter. */
  lemma {:induction false} KeepAlphabeticMembers(words: seq<string>, w: string)
    ensures w in KeepAlphabetic(words) <==> w in words && HasAlpha(w)
  {
    if words != [] {
      var init := words[..|words| - 1];
      assert words == init + [words[|words| - 1]];
      KeepAlphabeticMembers(init, w);
    }
  }

  /**
   * The filter keeps the order: filtering two word lists one after the other
   * is filtering their concatenation, so a word is kept or dropped wherever it
   * appears, and the kept words stay in their order.
   */
  lemma {:induction false} KeepAlphabeticConcat(a: seq<string>, b: seq<string>)
    ensures KeepAlphabetic(a + b) == KeepAlphabetic(a) + KeepAlphabetic(b)
    decreases |b|
  {
    if b == [] {
      assert a + b == a;
    } else {
      var init, last := b[..|b| - 1], b[|b| - 1];
      assert a + b == (a + init) + [last];
      assert (a + b)[..|a + b| - 1] == a + init;
      KeepAlphabeticConcat(a, init);
    }
  }

  /** A single word is kept exactly when it holds a letter. */
  lemma KeepAlphabeticOne(w: string)
    ensures KeepAlphabetic([w]) == if HasAlpha(w) then [w] else []
  {
    assert [w][..0] == [];
  }

  /**
   * `preprocess(sentence)`: the sentence is lower-cased and tokenized, and the
   * tokens with no letter (punctuation, numbers) are dropped.
   */
  function Preprocess(sentence: string, tokenize: string -> seq<string>): (r: seq<string>)
    ensures forall w :: w in r <==> w in tokenize(Lower(sentence)) && HasAlpha(w)
  {
    var words := tokenize(Lower(sentence));
    assert forall w :: w in KeepAlphabetic(words) <==> w in words && HasAlpha(w) by {
      forall w {
        KeepAlphabeticMembers(words, w);
      }
    }
    KeepAlphabetic(words)
  }

  // ---------------------------------------------------------------------------
  // np_chunk

  /** `tree.subtrees()`: the inner nodes, in pre-order, the tree itself first; leaves are words, not trees. */
  function Subtrees(t: Tree): seq<Tree>
    decreases t, 1
  {
    match t
    case Leaf(_) => []
    case Node(_, children) => [t] + SubtreesAll(children)
  }

  /** The pre-order nodes of each child in turn. */
  function SubtreesAll(ts: seq<Tree>): seq<Tree>
    decreases ts, 0
  {
    if ts == [] then [] else Subtrees(ts[0]) + SubtreesAll(ts[1..])
  }

  /** The number of inner nodes and leaves. */
  function Size(t: Tree): nat
    decreases t, 1
  {
    match t
    case Leaf(_) => 1
    case Node(_, children) => 1 + SizeAll(children)
  }

  function SizeAll(ts: seq<Tree>): nat
    decreases ts, 0
  {
    if ts == [] then 0 else Size(ts[0]) + SizeAll(ts[1..])
  }

  /** The subtrees of `t` are nodes no larger than `t`. */
  lemma {:induction false} SubtreesSmaller(t: Tree)
    ensures forall s | s in Subtrees(t) :: s.Node? && Size(s) <= Size(t)
    decreases t, 1
  {
    if t.Node? {
      SubtreesAllSmaller(t.children);
    }
  }

  lemma {:induction false} SubtreesAllSmaller(ts: seq<Tree>)
    ensures forall s | s in SubtreesAll(ts) :: s.Node? && Size(s) <= SizeAll(ts)
    decreases ts, 0
  {
    if ts != [] {
      SubtreesSmaller(ts[0]);
      SubtreesAllSmaller(ts[1..]);
    }
  }

  /** `subtree.subtrees(lambda t: t != subtree)`: every node of `subtree` that differs from it. */
  function OtherSubtrees(ts: seq<Tree>, subtree: Tree): (r: seq<Tree>)
    ensures |r| <= |ts|
  {
    if ts == [] then []
    else OtherSubtrees(ts[..|ts| - 1], subtree) + (if ts[|ts| - 1] != subtree then [ts[|ts| - 1]] else [])
  }

  /**
   * The filter `t != subtree` drops exactly the subtree itself: no proper
   * descendant equals its ancestor, being smaller. What remains are the
   * proper descendants, in pre-order.
   */
  lemma ProperSubtrees(subtree: Tree)
    requires subtree.Node?
    ensures OtherSubtrees(Subtrees(subtree), subtree) == SubtreesAll(subtree.children)
  {
    var below := SubtreesAll(subtree.children);
    SubtreesAllSmaller(subtree.children);
    assert forall k | 0 <= k < |below| :: below[k] != subtree by {
      forall k | 0 <= k < |below| ensures below[k] != subtree {
        assert below[k] in below;
      }
    }
    KeepAllOthers(below, subtree);
    assert Subtrees(subtree) == [subtree] + SubtreesAll(subtree.children);
    OtherSubtreesConcat([subtree], SubtreesAll(subtree.children), subtree);
    assert OtherSubtrees([subtree], subtree) == [] by {
      assert [subtree][..0] == [];
    }
  }

  lemma {:induction false} KeepAllOthers(ts: seq<Tree>, subtree: Tree)
    requires forall k | 0 <= k < |ts| :: ts[k] != subtree
    ensures OtherSubtrees(ts, subtree) == ts
  {
    if ts != [] {
      var init, last := ts[..|ts| - 1], ts[|ts| - 1];
      KeepAllOthers(init, subtree);
      assert ts == init + [last];
    }
  }

  lemma {:induction false} OtherSubtreesConcat(a: seq<Tree>, b: seq<Tree>, subtree: Tree)
    ensures OtherSubtrees(a + b, subtree) == OtherSubtrees(a, subtree) + OtherSubtrees(b, subtree)
    decreases |b|
  {
    if b == [] {
      assert a + b == a;
    } else {
      var init, last := b[..|b| - 1], b[|b| - 1];
      assert a + b == (a + init) + [last];
      assert (a + b)[..|a + b| - 1] == a + init;
      OtherSubtreesConcat(a, init, subtree);
    }
  }

  /** `any(t.label() == 'NP' for t in ts)`. */
  predicate AnyNp(ts: seq<Tree>) {
    exists k | 0 <= k < |ts| :: ts[k].Node? && ts[k].tag == "NP"
  }

  /** The test of the loop in `np_chunk`: an NP none of whose other subtrees is an NP. */
  predicate IsChunk(subtree: Tree) {
    subtree.Node? && subtree.tag == "NP" && !AnyNp(OtherSubtrees(Subtrees(subtree), subtree))
  }

  /** The chunks among `ts`, in order. */
  function Chunks(ts: seq<Tree>): (r: seq<Tree>)
    ensures |r| <= |ts|
  {
    if ts == [] then []
    else Chunks(ts[..|ts| - 1]) + (if IsChunk(ts[|ts| - 1]) then [ts[|ts| - 1]] else [])
  }

  /** A tree is among the chunks exactly when it is one of `ts` and passes the test. */
  lemma {:induction false} ChunksMembers(ts: seq<Tree>, s: Tree)
    ensures s in Chunks(ts) <==> s in ts && IsChunk(s)
  {
    if ts != [] {
      var init := ts[..|ts| - 1];
      assert ts == init + [ts[|ts| - 1]];
      ChunksMembers(init, s);
    }
  }

  /**
   * `np_chunk(tree)`: the loop walks the subtrees in pre-order and appends
   * each NP that has no NP among its other subtrees.
   */
  method NpChunk(tree: Tree) returns (npChunks: seq<Tree>)
    requires tree.Node?
    ensures npChunks == Chunks(Subtrees(tree))
  {
    npChunks := [];
    var subtrees := Subtrees(tree);
    for i := 0 to |subtrees|
      invariant npChunks == Chunks(subtrees[..i])
    {
      var subtree := subtrees[i];
      assert subtrees[..i + 1][..i] == subtrees[..i];
      if subtree.Node? && subtree.tag == "NP" {
        if !AnyNp(OtherSubtrees(Subtrees(subtree), subtree)) {
          npChunks := npChunks + [subtree];
        }
      }
    }
    assert subtrees[..|subtrees|] == subtrees;
  }

  /**
   * Every chunk is an NP subtree of the tree with no NP among its proper
   * descendants; every such subtree is a chunk.
   */
  lemma ChunksSpec(tree: Tree, s: Tree)
    ensures s in Chunks(Subtrees(tree)) <==>
      && s in Subtrees(tree)
      && s.Node? && s.tag == "NP"
      && !AnyNp(SubtreesAll(s.children))
  {
    ChunksMembers(Subtrees(tree), s);
    if s.Node? {
      ProperSubtrees(s);
    }
  }

  /** The chunks keep the pre-order: the chunks of two runs of subtrees, one after the other. */
  lemma {:induction false} ChunksConcat(a: seq<Tree>, b: seq<Tree>)
    ensures Chunks(a + b) == Chunks(a) + Chunks(b)
    decreases |b|
  {
    if b == [] {
      assert a + b == a;
    } else {
      var init, last := b[..|b| - 1], b[|b| - 1];
      assert a + b == (a + init) + [last];
      assert (a + b)[..|a + b| - 1] == a + init;
      ChunksConcat(a, init);
    }
  }

  /** A single subtree is kept exactly when it passes the test. */
  lemma ChunksOne(s: Tree)
    ensures Chunks([s]) == if IsChunk(s) then [s] else []
  {
    assert [s][..0] == [];
  }

  /** Every subtree of a subtree of `t` is a subtree of `t`. */
  lemma {:induction false} SubtreesTransitive(t: Tree, d: Tree, s: Tree)
    requires d in Subtrees(t) && s in Subtrees(d)
    ensures s in Subtrees(t)
    decreases t, 1
  {
    if d != t {
      SubtreesAllTransitive(t.children, d, s);
    }
  }

  lemma {:induction false} SubtreesAllTransitive(ts: seq<Tree>, d: Tree, s: Tree)
    requires d in SubtreesAll(ts) && s in Subtrees(d)
    ensures s in SubtreesAll(ts)
    decreases ts, 0
  {
    if d in Subtrees(ts[0]) {
      SubtreesTransitive(ts[0], d, s);
    } else {
      SubtreesAllTransitive(ts[1..], d, s);
    }
  }

  /** Every NP node holds a chunk: itself, or one inside an NP below it. */
  lemma {:induction false} NpHoldsChunk(np: Tree) returns (c: Tree)
    requires np.Node? && np.tag == "NP"
    ensures c in Subtrees(np) && IsChunk(c)
    decreases Size(np)
  {
    ProperSubtrees(np);
    var below := SubtreesAll(np.children);
    if AnyNp(below) {
      var k :| 0 <= k < |below| && below[k].Node? && below[k].tag == "NP";
      SubtreesAllSmaller(np.children);
      assert below[k] in below;
      c := NpHoldsChunk(below[k]);
      assert below[k] in Subtrees(np);
      SubtreesTransitive(np, below[k], c);
    } else {
      c := np;
    }
  }

  /** `np_chunk` returns no chunk exactly when the tree has no NP node. */
  lemma NoChunksIffNoNp(tree: Tree)
    ensures Chunks(Subtrees(tree)) == [] <==> !AnyNp(Subtrees(tree))
  {
    var all := Subtrees(tree);
    if AnyNp(all) {
      var k :| 0 <= k < |all| && all[k].Node? && all[k].tag == "NP";
      var c := NpHoldsChunk(all[k]);
      SubtreesTransitive(tree, all[k], c);
      ChunksMembers(all, c);
    } else if Chunks(all) != [] {
      var c := Chunks(all)[0];
      ChunksMembers(all, c);
    }
  }
}
