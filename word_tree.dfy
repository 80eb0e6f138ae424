/** Model of `WordTree`: a type-ahead trie over the letters 'a'..'z'. Every node
    has 26 child slots, indexed by `c - 'a'`, and an end-of-word flag. The tree
    counts the distinct words added, answers membership, and predicts completions
    of a prefix by a breadth-first walk below the prefix's node.
 */
module TypeAhead {

  datatype Option<T> = None | Some(value: T)

  /** The number of child slots per node: one per lower-case letter. */
  const AlphabetSize: nat := 26

  predicate IsLetter(c: char)
  {
    'a' <= c <= 'z'
  }

  /** A string every character of which has a child slot. */
  predicate IsWord(w: string)
  {
    forall i :: 0 <= i < |w| ==> IsLetter(w[i])
  }

  /** `calcLetterIndex`: the child slot of a letter. */
  function CalcLetterIndex(c: char): (i: nat)
    requires IsLetter(c)
    ensures i < AlphabetSize
  {
    c as int - 'a' as int
  }

  /** `indexToLetter`: the letter of a child slot. */
  function IndexToLetter(i: nat): (c: char)
    requires i < AlphabetSize
    ensures IsLetter(c)
  {
    (i + 'a' as int) as char
  }

  /** The two conversions are inverse bijections between 'a'..'z' and 0..25. */
  lemma LetterIndexRoundTrip(c: char, i: nat)
    requires IsLetter(c) && i < AlphabetSize
    ensures IndexToLetter(CalcLetterIndex(c)) == c
    ensures CalcLetterIndex(IndexToLetter(i)) == i
  {
  }

  /** A trie node: the end-of-word flag and one optional child per letter. */
  datatype TreeNode = TreeNode(endOfWord: bool, children: seq<Option<TreeNode>>)

  /** A freshly made node: no word ends here and no child exists. */
  function EmptyNode(): (r: TreeNode)
    ensures |r.children| == AlphabetSize && !r.endOfWord
    ensures forall i :: 0 <= i < AlphabetSize ==> r.children[i] == None
  {
    TreeNode(false, seq(AlphabetSize, _ => None))
  }

  /** Every node of the tree has exactly 26 child slots. */
  ghost predicate WellFormed(n: TreeNode)
    decreases n
  {
    |n.children| == AlphabetSize &&
    forall i :: 0 <= i < AlphabetSize && n.children[i].Some? ==> WellFormed(n.children[i].value)
  }

  /** The node reached from `n` by following the letters of `s`, if the path exists. */
  function Subtree(n: TreeNode, s: string): (r: Option<TreeNode>)
    requires WellFormed(n) && IsWord(s)
    ensures r.Some? ==> WellFormed(r.value)
    decreases |s|
  {
    if s == [] then Some(n)
    else
      match n.children[CalcLetterIndex(s[0])]
      case None => None
      case Some(child) => Subtree(child, s[1..])
  }

  /** `w` is stored below `n`: its path exists and ends at a node marked end-of-word. */
  ghost predicate Contains(n: TreeNode, w: string)
    requires WellFormed(n) && IsWord(w)
  {
    Subtree(n, w).Some? && Subtree(n, w).value.endOfWord
  }

  /** Extending a path by one letter moves to that letter's child slot. */
  lemma {:induction false} SubtreeExtend(n: TreeNode, s: string, c: char)
    requires WellFormed(n) && IsWord(s) && IsLetter(c)
    ensures IsWord(s + [c])
    ensures Subtree(n, s + [c]) ==
      match Subtree(n, s)
      case None => None
      case Some(m) => m.children[CalcLetterIndex(c)]
    decreases |s|
  {
    if s != [] {
      assert (s + [c])[0] == s[0] && (s + [c])[1..] == s[1..] + [c];
      match n.children[CalcLetterIndex(s[0])]
      case None =>
      case Some(child) => SubtreeExtend(child, s[1..], c);
    }
  }

  /** The empty node stores no word. */
  lemma EmptyContainsNothing(w: string)
    requires IsWord(w)
    ensures WellFormed(EmptyNode()) && !Contains(EmptyNode(), w)
  {
  }

  /** The tree with `w` added along its path: missing nodes are created empty and the
      last one is marked end-of-word. */
  function Insert(n: TreeNode, w: string): (r: TreeNode)
    requires WellFormed(n) && IsWord(w)
    ensures WellFormed(r)
    decreases |w|
  {
    if w == [] then TreeNode(true, n.children)
    else
      TreeNode(n.endOfWord, n.children[CalcLetterIndex(w[0]) := Some(Insert(ChildOrNew(n, CalcLetterIndex(w[0])), w[1..]))])
  }

  /** The child in slot `i`, or a fresh empty node when the slot is empty. */
  function ChildOrNew(n: TreeNode, i: nat): (r: TreeNode)
    requires WellFormed(n) && i < AlphabetSize
    ensures WellFormed(r)
  {
    if n.children[i].Some? then n.children[i].value else EmptyNode()
  }

  /** After inserting `w` exactly `w` and the words stored before are stored. */
  lemma {:induction false} InsertContains(n: TreeNode, w: string, v: string)
    requires WellFormed(n) && IsWord(w) && IsWord(v)
    ensures Contains(Insert(n, w), v) <==> v == w || Contains(n, v)
    decreases |w|
  {
    if w != [] && v != [] {
      var i := CalcLetterIndex(w[0]);
      if CalcLetterIndex(v[0]) == i {
        LetterIndexRoundTrip(w[0], 0);
        LetterIndexRoundTrip(v[0], 0);
        assert v[0] == w[0];
        InsertContains(ChildOrNew(n, i), w[1..], v[1..]);
        if n.children[i].None? {
          EmptyContainsNothing(v[1..]);
        }
        assert v == w <==> v[1..] == w[1..] by {
          if v[1..] == w[1..] {
            assert v == [v[0]] + v[1..] && w == [w[0]] + w[1..];
          }
        }
      }
    }
  }

  // ---------------------------------------------------------------------------
  // Breadth-first prediction.

  /** `NodeWithString`: a queued node and the text spelled by the path to it. */
  datatype Pending = Pending(node: TreeNode, text: string)

  /** `s` starts with `p`. */
  predicate Extends(s: string, p: string)
  {
    |p| <= |s| && s[..|p|] == p
  }

  /** A queued entry names the node at the end of its own text, below `partial`. */
  ghost predicate PendingOk(root: TreeNode, partial: string, e: Pending)
    requires WellFormed(root)
  {
    IsWord(e.text) && Extends(e.text, partial) && Subtree(root, e.text) == Some(e.node)
  }

  /** A prediction is a stored word strictly longer than `partial` that starts with it. */
  ghost predicate PredictionOk(root: TreeNode, partial: string, p: string)
    requires WellFormed(root)
  {
    IsWord(p) && Contains(root, p) && |p| > |partial| && Extends(p, partial)
  }

  /** The nodes of a tree, counted; the measure that makes the search finite. */
  ghost function Size(n: TreeNode): nat
    decreases n, |n.children| + 1
  {
    1 + ChildSizes(n, |n.children|)
  }

  /** The total size of the subtrees in the first `i` child slots of `n`. */
  ghost function ChildSizes(n: TreeNode, i: nat): nat
    requires i <= |n.children|
    decreases n, i
  {
    if i == 0 then 0
    else ChildSizes(n, i - 1) + if n.children[i - 1].Some? then Size(n.children[i - 1].value) else 0
  }

  lemma {:induction false} ChildSizesMono(n: TreeNode, i: nat, j: nat)
    requires i <= j <= |n.children|
    ensures ChildSizes(n, i) <= ChildSizes(n, j)
    decreases j
  {
    if i < j {
      ChildSizesMono(n, i, j - 1);
    }
  }

  /** The total size of the queued subtrees. */
  ghost function Weight(q: seq<Pending>): nat
  {
    if q == [] then 0 else Weight(q[..|q| - 1]) + Size(q[|q| - 1].node)
  }

  /** Popping the front of the queue removes exactly its subtree from the weight. */
  lemma {:induction false} WeightFront(q: seq<Pending>)
    requires q != []
    ensures Weight(q) == Size(q[0].node) + Weight(q[1..])
  {
    if |q| > 1 {
      WeightFront(q[..|q| - 1]);
      assert q[..|q| - 1][1..] == q[1..][..|q| - 2];
    }
  }

  /** Lengths that never decrease along a sequence. */
  predicate LengthsSorted(ws: seq<string>)
  {
    forall k, l :: 0 <= k < l < |ws| ==> |ws[k]| <= |ws[l]|
  }

  /** Every queued entry is well-formed and the texts are in order of length. */
  ghost predicate QueueValid(root: TreeNode, partial: string, q: seq<Pending>)
    requires WellFormed(root)
  {
    (forall k :: 0 <= k < |q| ==> PendingOk(root, partial, q[k])) &&
    (forall k, l :: 0 <= k < l < |q| ==> |q[k].text| <= |q[l].text|)
  }

  /** Every queued text has a length in [lo, hi]. */
  predicate Bounded(q: seq<Pending>, lo: nat, hi: nat)
  {
    forall k :: 0 <= k < |q| ==> lo <= |q[k].text| <= hi
  }

  /** Every prediction is valid and the predictions are in order of length. */
  ghost predicate PredictionsValid(root: TreeNode, partial: string, preds: seq<string>)
    requires WellFormed(root)
  {
    (forall k :: 0 <= k < |preds| ==> PredictionOk(root, partial, preds[k])) && LengthsSorted(preds)
  }

  /** Every prediction is at most `hi` letters long. */
  predicate NoLongerThan(preds: seq<string>, hi: nat)
  {
    forall k :: 0 <= k < |preds| ==> |preds[k]| <= hi
  }

  /** The child in slot `i` of a queued node is the node of the text extended by
      that slot's letter, and a prediction when a word ends there. */
  lemma ChildPending(root: TreeNode, partial: string, current: Pending, i: nat)
    requires WellFormed(root) && PendingOk(root, partial, current)
    requires i < AlphabetSize && current.node.children[i].Some?
    ensures PendingOk(root, partial, Pending(current.node.children[i].value, current.text + [IndexToLetter(i)]))
    ensures current.node.children[i].value.endOfWord ==>
      PredictionOk(root, partial, current.text + [IndexToLetter(i)])
  {
    var newPartial := current.text + [IndexToLetter(i)];
    SubtreeExtend(root, current.text, IndexToLetter(i));
    LetterIndexRoundTrip('a', i);
    assert newPartial[..|partial|] == current.text[..|partial|];
  }

  /** Appending an entry one letter longer than the node being expanded keeps the
      queue valid, sorted and within one letter of that node. */
  lemma QueueAppend(root: TreeNode, partial: string, q: seq<Pending>, e: Pending, len: nat)
    requires WellFormed(root) && PendingOk(root, partial, e) && |e.text| == len + 1
    requires QueueValid(root, partial, q) && Bounded(q, len, len + 1)
    ensures QueueValid(root, partial, q + [e]) && Bounded(q + [e], len, len + 1)
  {
  }

  /** Queueing the child in slot `i` adds that child's subtree, which the next prefix
      of child sizes accounts for. */
  lemma WeightStep(q: seq<Pending>, e: Pending, node: TreeNode, i: nat, w: nat)
    requires i < |node.children| && node.children[i] == Some(e.node)
    requires Weight(q) <= w + ChildSizes(node, i)
    ensures Weight(q + [e]) <= w + ChildSizes(node, i + 1)
  {
    assert (q + [e])[..|q|] == q;
  }

  /** Appending a prediction one letter longer than the node being expanded keeps the
      predictions valid and sorted by length. */
  lemma PredictionAppend(root: TreeNode, partial: string, preds: seq<string>, p: string, len: nat)
    requires WellFormed(root) && PredictionOk(root, partial, p) && |p| == len + 1
    requires PredictionsValid(root, partial, preds) && NoLongerThan(preds, len + 1)
    ensures PredictionsValid(root, partial, preds + [p]) && NoLongerThan(preds + [p], len + 1)
  {
  }

  /** Taking the head off a sorted queue leaves a sorted queue whose texts are within
      one letter of the head's, and takes the head's subtree off the weight. */
  lemma PopFront(root: TreeNode, partial: string, q: seq<Pending>)
    requires WellFormed(root) && q != [] && QueueValid(root, partial, q)
    requires Bounded(q, |q[0].text|, |q[0].text| + 1)
    ensures PendingOk(root, partial, q[0])
    ensures QueueValid(root, partial, q[1..]) && Bounded(q[1..], |q[0].text|, |q[0].text| + 1)
    ensures Weight(q) == Size(q[0].node) + Weight(q[1..])
  {
    WeightFront(q);
    assert forall k :: 0 <= k < |q| - 1 ==> q[1..][k] == q[k + 1];
  }

  /** After a round the new head is at least as long as the expanded node, so every
      queued text and every prediction is within one letter of the new head. */
  lemma Rebase(root: TreeNode, partial: string, q: seq<Pending>, preds: seq<string>, len: nat)
    requires WellFormed(root) && q != [] && QueueValid(root, partial, q)
    requires Bounded(q, len, len + 1) && NoLongerThan(preds, len + 1)
    ensures Bounded(q, |q[0].text|, |q[0].text| + 1) && NoLongerThan(preds, |q[0].text| + 1)
  {
    assert len <= |q[0].text|;
  }

  /** The state of a round of the search after the first `i` child slots of
      `current`: the queue only grew, and queue and predictions stay valid, within one
      letter of `current`, and within the weight of the visited children. */
  ghost predicate ExpandState(root: TreeNode, partial: string, current: Pending, q0: seq<Pending>,
                              q: seq<Pending>, preds: seq<string>, i: nat)
    requires WellFormed(root)
  {
    i <= |current.node.children| && q0 <= q &&
    QueueValid(root, partial, q) && Bounded(q, |current.text|, |current.text| + 1) &&
    PredictionsValid(root, partial, preds) && NoLongerThan(preds, |current.text| + 1) &&
    Weight(q) <= Weight(q0) + ChildSizes(current.node, i)
  }

  /** Visiting a present child slot: queue the child, and predict its text when a
      word ends there. */
  lemma VisitChild(root: TreeNode, partial: string, current: Pending, q0: seq<Pending>,
                   q: seq<Pending>, preds: seq<string>, i: nat)
    requires WellFormed(root) && PendingOk(root, partial, current)
    requires ExpandState(root, partial, current, q0, q, preds, i)
    requires i < AlphabetSize && current.node.children[i].Some?
    ensures var child := current.node.children[i].value;
      var e := Pending(child, current.text + [IndexToLetter(i)]);
      ExpandState(root, partial, current, q0, q + [e],
                  if child.endOfWord then preds + [e.text] else preds, i + 1)
  {
    var child := current.node.children[i].value;
    var e := Pending(child, current.text + [IndexToLetter(i)]);
    ChildPending(root, partial, current, i);
    if child.endOfWord {
      PredictionAppend(root, partial, preds, e.text, |current.text|);
    }
    QueueAppend(root, partial, q, e, |current.text|);
    WeightStep(q, e, current.node, i, Weight(q0));
    assert q0 <= q + [e];
  }

  /** One round of the search: visits the child slots of `current` in letter order,
      appending each child whose node ends a word to the predictions and queueing
      every child; stops early once the queue holds `howMany` entries. */
  method ExpandNode(ghost root: TreeNode, ghost partial: string, current: Pending,
                    q0: seq<Pending>, preds0: seq<string>, howMany: nat)
    returns (q: seq<Pending>, predictions: seq<string>)
    requires WellFormed(root) && PendingOk(root, partial, current)
    requires QueueValid(root, partial, q0) && Bounded(q0, |current.text|, |current.text| + 1)
    requires PredictionsValid(root, partial, preds0) && NoLongerThan(preds0, |current.text| + 1)
    ensures q0 <= q
    ensures QueueValid(root, partial, q) && Bounded(q, |current.text|, |current.text| + 1)
    ensures PredictionsValid(root, partial, predictions) && NoLongerThan(predictions, |current.text| + 1)
    ensures Weight(q) < Weight(q0) + Size(current.node)
  {
    var node := current.node;
    q, predictions := q0, preds0;
    var i := 0;
    while i < |node.children|
      invariant ExpandState(root, partial, current, q0, q, predictions, i)
    {
      if node.children[i].Some? {
        var child := node.children[i].value;
        var newPartial := current.text + [IndexToLetter(i)];
        VisitChild(root, partial, current, q0, q, predictions, i);
        if child.endOfWord {
          predictions := predictions + [newPartial];
        }
        q := q + [Pending(child, newPartial)];
        if |q| == howMany {
          ChildSizesMono(node, i + 1, |node.children|);
          break;
        }
      }
      i := i + 1;
    }
  }

  /** The breadth-first loop of `predict`, started from the node of `partial`: runs
      while fewer than `howMany` predictions were made and the queue is not empty. */
  method Search(ghost root: TreeNode, partial: string, start: TreeNode, howMany: nat)
    returns (predictions: seq<string>)
    requires WellFormed(root) && PendingOk(root, partial, Pending(start, partial))
    ensures PredictionsValid(root, partial, predictions)
  {
    predictions := [];
    var q := [Pending(start, partial)];
    while |predictions| < howMany && |q| > 0
      invariant QueueValid(root, partial, q) && PredictionsValid(root, partial, predictions)
      invariant q != [] ==> Bounded(q, |q[0].text|, |q[0].text| + 1) && NoLongerThan(predictions, |q[0].text| + 1)
      decreases Weight(q)
    {
      var current := q[0];
      PopFront(root, partial, q);
      q, predictions := ExpandNode(root, partial, current, q[1..], predictions, howMany);
      if q != [] {
        Rebase(root, partial, q, predictions, |current.text|);
      }
    }
  }

  class WordTree {
    var root: TreeNode
    var size: nat
    /** The words added so far. */
    ghost var words: set<string>

    /** The tree stores exactly `words`, which are non-empty, and `size` counts them. */
    ghost predicate Valid()
      reads this
    {
      WellFormed(root) &&
      (forall w :: w in words ==> IsWord(w) && |w| > 0) &&
      (forall w :: IsWord(w) ==> (Contains(root, w) <==> w in words)) &&
      size == |words|
    }

    /** An empty tree: the root alone. */
    constructor ()
      ensures Valid() && words == {} && root == EmptyNode()
    {
      root := EmptyNode();
      size := 0;
      words := {};
    }

    /** `size`: the number of distinct words added. */
    function Size(): (r: nat)
      reads this
      requires Valid()
      ensures r == |words|
    {
      size
    }

    /** `find`: false for the empty string; otherwise walks the word's path and
        reports whether it exists and ends at a word. */
    method Find(word: string) returns (found: bool)
      requires Valid() && IsWord(word)
      ensures found <==> word in words
    {
      if |word| == 0 {
        return false;
      }
      var currNode := WalkTo(word);
      return currNode.Some? && currNode.value.endOfWord;
    }

    /** The walk shared by `find` and `predict`: follows the letters of `s` from the
        root one child at a time, stopping at the first missing child. */
    method WalkTo(s: string) returns (r: Option<TreeNode>)
      requires Valid() && IsWord(s)
      ensures r == Subtree(root, s)
    {
      var currNode := root;
      var i := 0;
      while i < |s|
        invariant 0 <= i <= |s| && WellFormed(currNode)
        invariant Subtree(root, s) == Subtree(currNode, s[i..])
      {
        var currIndex := CalcLetterIndex(s[i]);
        match currNode.children[currIndex]
        case None =>
          return None;
        case Some(child) =>
          assert s[i..][1..] == s[i + 1..];
          currNode := child;
        i := i + 1;
      }
      assert s[i..] == [];
      return Some(currNode);
    }

    /** `add`: a word already present, and the empty word, change nothing; otherwise
        the word's path is created and its last node marked, and the count goes up. */
    method Add(word: string)
      requires Valid() && IsWord(word)
      modifies this
      ensures Valid()
      ensures words == if |word| > 0 then old(words) + {word} else old(words)
      ensures (word in old(words) || |word| == 0) ==> root == old(root) && size == old(size)
    {
      var found := Find(word);
      if found {
        return;
      }
      if |word| > 0 {
        ghost var oldRoot := root;
        root := Insert(root, word);
        size := size + 1;
        words := words + {word};
        forall v | IsWord(v)
          ensures Contains(root, v) <==> v in words
        {
          InsertContains(oldRoot, word, v);
        }
      }
    }

    /** `predict`: no predictions for the empty prefix or a prefix whose path is
        missing; otherwise a breadth-first search below the prefix's node, which
        continues while fewer than `howMany` predictions were made and nodes remain
        queued. Predictions are stored words that extend the prefix, shortest first. */
    method Predict(partial: string, howMany: nat) returns (predictions: seq<string>)
      requires Valid() && IsWord(partial) && howMany <= 255
      ensures |partial| == 0 || Subtree(root, partial).None? ==> predictions == []
      ensures forall k :: 0 <= k < |predictions| ==>
        predictions[k] in words && |predictions[k]| > |partial| && predictions[k][..|partial|] == partial
      ensures LengthsSorted(predictions)
    {
      predictions := [];
      if |partial| == 0 {
        return;
      }
      var currNode := WalkTo(partial);
      if currNode.None? {
        return;
      }
      assert partial[..|partial|] == partial;
      predictions := Search(root, partial, currNode.value, howMany);
    }
  }
}
