/** The chained hash table of active words: 64 buckets of singly linked nodes, refining a finite set of texts. */
module ActiveWords {
  import opened Bytes

  const HASH_TABLE_SIZE: nat := 64
  const WORD_LIMIT: nat := 29  // MAX_WORD_LEN - 1
  const UINT_SIZE: nat := 0x1_0000_0000

  // ---------- the hash function ----------

  /** The polynomial hash over unbounded integers, unsigned characters. */
  function Poly(s: Bytes): nat {
    if s == [] then 5381 else Poly(s[..|s| - 1]) * 33 + s[|s| - 1] as int
  }

  function Bucket(s: Bytes): (i: nat)
    ensures i < HASH_TABLE_SIZE
  {
    Poly(s) % HASH_TABLE_SIZE
  }

  /** A C char promoted to int: signed on some machines, unsigned on others. */
  function Promoted(c: Byte, signedChar: bool): int {
    if signedChar && c as int >= 128 then c as int - 256 else c as int
  }

  /** One turn of the loop in 32-bit unsigned arithmetic agrees with the polynomial modulo 64. */
  lemma HashTurn(h: nat, p: nat, c: Byte, signedChar: bool)
    requires h % HASH_TABLE_SIZE == p % HASH_TABLE_SIZE
    ensures ((h * 32) % UINT_SIZE + h + Promoted(c, signedChar)) % UINT_SIZE % HASH_TABLE_SIZE
            == (p * 33 + c as int) % HASH_TABLE_SIZE
  {
    var a := (h * 32) % UINT_SIZE;
    assert a == h * 32 - UINT_SIZE * (h * 32 / UINT_SIZE);
    var b := a + h + Promoted(c, signedChar);
    assert b % UINT_SIZE == b - UINT_SIZE * (b / UINT_SIZE);
    var q := h * 32 / UINT_SIZE;
    var r := b / UINT_SIZE;
    var d := p / HASH_TABLE_SIZE - h / HASH_TABLE_SIZE;
    assert p == h + HASH_TABLE_SIZE * d;
    var e := if signedChar && c as int >= 128 then 4 else 0;
    assert p * 33 + c as int == b % UINT_SIZE + HASH_TABLE_SIZE * (33 * d + e + 0x400_0000 * q + 0x400_0000 * r);
    ModShift(b % UINT_SIZE, 33 * d + e + 0x400_0000 * q + 0x400_0000 * r);
  }

  lemma ModShift(x: int, k: int)
    ensures (x + HASH_TABLE_SIZE * k) % HASH_TABLE_SIZE == x % HASH_TABLE_SIZE
  {
  }

  /** `hash_function`: whatever the wrapping and the signedness of char, the bucket is that of the polynomial. */
  method HashFunction(str: Bytes, signedChar: bool) returns (index: nat)
    ensures index == Bucket(str)
  {
    var hash: nat := 5381;
    var i := 0;
    while i < |str|
      invariant 0 <= i <= |str| && hash < UINT_SIZE
      invariant hash % HASH_TABLE_SIZE == Poly(str[..i]) % HASH_TABLE_SIZE
    {
      HashTurn(hash, Poly(str[..i]), str[i], signedChar);
      assert str[..i + 1][..i] == str[..i];
      hash := ((hash * 32) % UINT_SIZE + hash + Promoted(str[i], signedChar)) % UINT_SIZE;
      i := i + 1;
    }
    assert str[..i] == str;
    index := hash % HASH_TABLE_SIZE;
  }

  // ---------- the table ----------

  class Node {
    const word: Bytes
    var next: Node?

    constructor (word: Bytes, next: Node?)
      ensures this.word == word && this.next == next
    {
      this.word := word;
      this.next := next;
    }
  }

  /** head is the first node of the list ch. */
  ghost predicate Linked(head: Node?, ch: seq<Node>)
    reads ch
  {
    && head == (if |ch| == 0 then null else ch[0])
    && (forall k {:trigger ch[k].next} :: 0 <= k < |ch| ==> ch[k].next == (if k + 1 < |ch| then ch[k + 1] else null))
  }

  /** The texts on chain i: hashed there, short enough, all different. */
  ghost predicate TextsOk(ch: seq<Node>, i: int) {
    && (forall k :: 0 <= k < |ch| ==> Bucket(ch[k].word) == i && |ch[k].word| <= WORD_LIMIT)
    && (forall k, l :: 0 <= k < l < |ch| ==> ch[k].word != ch[l].word)
  }

  /** nodes is what the 64 chains hold, every text on its own chain, once. */
  ghost predicate ChainsOk(chains: seq<seq<Node>>, nodes: set<Node>) {
    && |chains| == HASH_TABLE_SIZE
    && (forall i :: 0 <= i < HASH_TABLE_SIZE ==> TextsOk(chains[i], i))
    && (forall i, k :: 0 <= i < HASH_TABLE_SIZE && 0 <= k < |chains[i]| ==> chains[i][k] in nodes)
    && (forall n :: n in nodes ==> n in chains[Bucket(n.word)])
  }

  function TextsOf(nodes: set<Node>): set<Bytes> {
    set n | n in nodes :: n.word
  }

  lemma PrependOk(chains: seq<seq<Node>>, nodes: set<Node>, node: Node, i: nat, chains': seq<seq<Node>>)
    requires ChainsOk(chains, nodes) && node.word !in TextsOf(nodes) && |node.word| <= WORD_LIMIT
    requires i == Bucket(node.word) && chains' == chains[i := [node] + chains[i]]
    ensures ChainsOk(chains', nodes + {node})
    ensures TextsOf(nodes + {node}) == TextsOf(nodes) + {node.word}
    ensures |TextsOf(nodes + {node})| == |TextsOf(nodes)| + 1
  {
    var ch := [node] + chains[i];
    forall n | n in nodes + {node} ensures n in chains[i := ch][Bucket(n.word)] {
      if n == node { assert ch[0] == node; } else { assert n in chains[Bucket(n.word)]; }
    }
    forall k | 1 <= k < |ch| ensures ch[k].word != node.word { assert chains[i][k - 1] in nodes; }
  }

  lemma PrependWrong(chains: seq<seq<Node>>, nodes: set<Node>, node: Node, i: nat, chains': seq<seq<Node>>)
    requires ChainsOk(chains, nodes) && i < HASH_TABLE_SIZE && chains' == chains[i := [node] + chains[i]]
    requires i != Bucket(node.word) || node.word in TextsOf(nodes)
    ensures !ChainsOk(chains', nodes + {node})
  {
    var ch := [node] + chains[i];
    if i == Bucket(node.word) {
      var n :| n in nodes && n.word == node.word;
      assert n in chains[i];
      var k :| 0 <= k < |chains[i]| && chains[i][k] == n;
      assert ch[0].word == ch[k + 1].word;
    } else {
      assert ch[0] == node;
    }
    assert !TextsOk(chains'[i], i);
  }

  lemma PrependIff(chains: seq<seq<Node>>, nodes: set<Node>, node: Node, i: nat, chains': seq<seq<Node>>)
    requires ChainsOk(chains, nodes) && i < HASH_TABLE_SIZE && |node.word| <= WORD_LIMIT
    requires chains' == chains[i := [node] + chains[i]]
    ensures TextsOf(nodes + {node}) == TextsOf(nodes) + {node.word}
    ensures ChainsOk(chains', nodes + {node}) <==> i == Bucket(node.word) && node.word !in TextsOf(nodes)
    ensures node.word !in TextsOf(nodes) ==> |TextsOf(nodes + {node})| == |TextsOf(nodes)| + 1
  {
    assert TextsOf(nodes + {node}) == TextsOf(nodes) + {node.word};
    if i == Bucket(node.word) && node.word !in TextsOf(nodes) {
      PrependOk(chains, nodes, node, i, chains');
    } else {
      PrependWrong(chains, nodes, node, i, chains');
    }
  }

  /** A node is where it was in its chain, or one place further to the front. */
  lemma StillChained(ch: seq<Node>, k: nat, n: Node)
    requires k < |ch| && n in ch && n != ch[k]
    ensures n in ch[..k] + ch[k + 1..]
  {
    var j :| 0 <= j < |ch| && ch[j] == n;
    var rest := ch[..k] + ch[k + 1..];
    assert if j < k then rest[j] == n else rest[j - 1] == n;
  }

  lemma DropTexts(ch: seq<Node>, i: nat, k: nat)
    requires TextsOk(ch, i) && k < |ch|
    ensures TextsOk(ch[..k] + ch[k + 1..], i)
    ensures forall n :: n in ch && n != ch[k] ==> n.word != ch[k].word
  {
    var rest := ch[..k] + ch[k + 1..];
    assert forall j :: 0 <= j < |rest| ==> rest[j] == ch[if j < k then j else j + 1];
  }

  lemma DropChain(chains: seq<seq<Node>>, nodes: set<Node>, i: nat, k: nat, chains': seq<seq<Node>>)
    requires ChainsOk(chains, nodes) && i < HASH_TABLE_SIZE && k < |chains[i]|
    requires chains' == chains[i := chains[i][..k] + chains[i][k + 1..]]
    ensures ChainsOk(chains', nodes - {chains[i][k]})
    ensures forall n :: n in nodes && n != chains[i][k] ==> n.word != chains[i][k].word
  {
    var ch := chains[i];
    var gone := ch[k];
    assert TextsOk(ch, i);
    DropTexts(ch, i, k);
    forall n | n in nodes && n != gone ensures n in chains'[Bucket(n.word)] && n.word != gone.word {
      assert n in chains[Bucket(n.word)];
      if Bucket(n.word) == i { StillChained(ch, k, n); }
    }
  }

  lemma DropOk(chains: seq<seq<Node>>, nodes: set<Node>, i: nat, k: nat, chains': seq<seq<Node>>)
    requires ChainsOk(chains, nodes) && i < HASH_TABLE_SIZE && k < |chains[i]|
    requires chains' == chains[i := chains[i][..k] + chains[i][k + 1..]]
    ensures ChainsOk(chains', nodes - {chains[i][k]})
    ensures TextsOf(nodes - {chains[i][k]}) == TextsOf(nodes) - {chains[i][k].word}
    ensures |TextsOf(nodes - {chains[i][k]})| == |TextsOf(nodes)| - 1
  {
    var gone := chains[i][k];
    DropChain(chains, nodes, i, k, chains');
    assert TextsOf(nodes - {gone}) == TextsOf(nodes) - {gone.word} by {
      forall w | w in TextsOf(nodes) && w != gone.word ensures w in TextsOf(nodes - {gone}) {
        var n :| n in nodes && n.word == w;
        assert n in nodes - {gone};
      }
    }
    assert gone in nodes;
  }

  class Table {
    const buckets: array<Node?>
    var totalCount: int
    ghost var chains: seq<seq<Node>>
    ghost var nodes: set<Node>

    ghost predicate Valid()
      reads this, buckets, nodes
    {
      && ChainsOk(chains, nodes)
      && AllLinked()
      && totalCount == |Words()|
    }

    /** The abstract value: the set of stored texts. */
    ghost function Words(): set<Bytes>
      reads `nodes
    {
      TextsOf(nodes)
    }

    constructor ()
      ensures Valid() && Words() == {} && totalCount == 0 && fresh(buckets) && fresh(nodes)
    {
      buckets := new Node?[HASH_TABLE_SIZE](_ => null);
      totalCount := 0;
      chains := seq(HASH_TABLE_SIZE, _ => []);
      nodes := {};
    }

    /** The walk every operation starts with: the node with text w and the one before it, or null. */
    method Find(w: Bytes) returns (index: nat, prev: Node?, current: Node?, ghost k: nat)
      requires Valid()
      ensures index == Bucket(w) && k <= |chains[index]|
      ensures current == (if k < |chains[index]| then chains[index][k] else null)
      ensures prev == (if k == 0 then null else chains[index][k - 1])
      ensures current != null <==> w in Words()
      ensures current != null ==> current.word == w
    {
      index := HashFunction(w, true);
      ghost var ch := chains[index];
      assert Linked(buckets[index], ch);
      prev, current, k := null, buckets[index], 0;
      while current != null && current.word != w
        invariant 0 <= k <= |ch| && current == (if k < |ch| then ch[k] else null)
        invariant prev == (if k == 0 then null else ch[k - 1])
        invariant forall j :: 0 <= j < k ==> ch[j].word != w
        decreases |ch| - k
      {
        prev, current, k := current, current.next, k + 1;
      }
      if w in Words() {
        var n :| n in nodes && n.word == w;
        assert n in chains[Bucket(w)];
      }
    }

    /** `is_word_in_active_table`. */
    method IsWordInTable(w: Bytes) returns (found: bool)
      requires Valid()
      ensures found <==> w in Words()
    {
      var _, _, current, _ := Find(w);
      found := current != null;
    }

    /** Every bucket starts its chain. */
    ghost predicate AllLinked()
      reads `chains, buckets, set i, k | 0 <= i < |chains| && 0 <= k < |chains[i]| :: chains[i][k]
    {
      && buckets.Length == HASH_TABLE_SIZE == |chains|
      && forall i :: 0 <= i < HASH_TABLE_SIZE ==> Linked(buckets[i], chains[i])
    }

    /** The links after a new node is put in front of chain `index`. */
    method LinkInFront(index: nat, w: Bytes) returns (node: Node)
      requires AllLinked() && index < HASH_TABLE_SIZE
      modifies this, buckets
      ensures AllLinked() && fresh(node) && node.word == w
      ensures chains == old(chains)[index := [node] + old(chains)[index]]
      ensures nodes == old(nodes) + {node} && totalCount == old(totalCount) + 1
    {
      assert Linked(buckets[index], chains[index]);
      node := new Node(w, buckets[index]);
      assert Linked(node.next, chains[index]);
      assert Linked(node, [node] + chains[index]);
      buckets[index] := node;
      chains := chains[index := [node] + chains[index]];
      nodes := nodes + {node};
      totalCount := totalCount + 1;
    }

    /** The links after node k of chain `index` is bypassed; chains do not share nodes. */
    method LinkPast(index: nat, prev: Node?, current: Node, ghost k: nat)
      requires AllLinked() && index < HASH_TABLE_SIZE && k < |chains[index]| && current == chains[index][k]
      requires prev == (if k == 0 then null else chains[index][k - 1])
      requires forall i, j :: 0 <= i < HASH_TABLE_SIZE && i != index && 0 <= j < |chains[i]| ==> chains[i][j] != prev
      requires forall j, l :: 0 <= j < l < |chains[index]| ==> chains[index][j] != chains[index][l]
      modifies this, buckets, prev
      ensures AllLinked() && chains == old(chains)[index := old(chains)[index][..k] + old(chains)[index][k + 1..]]
      ensures nodes == old(nodes) - {current} && totalCount == old(totalCount) - 1
    {
      ghost var ch := chains[index];
      assert Linked(buckets[index], ch);
      if prev != null { prev.next := current.next; } else { buckets[index] := current.next; }
      chains := chains[index := ch[..k] + ch[k + 1..]];
      nodes := nodes - {current};
      totalCount := totalCount - 1;
      assert Linked(buckets[index], ch[..k] + ch[k + 1..]);
    }

    /** A new node in front of chain `index`: right exactly if the text is hashed there and not stored yet. */
    method Prepend(index: nat, text: Bytes)
      requires Valid() && index < HASH_TABLE_SIZE && |text| <= WORD_LIMIT
      modifies this, buckets
      ensures fresh(nodes - old(nodes)) && Words() == old(Words()) + {text} && totalCount == old(totalCount) + 1
      ensures Valid() <==> index == Bucket(text) && text !in old(Words())
    {
      var node := LinkInFront(index, text);
      PrependIff(old(chains), old(nodes), node, index, chains);
    }

    /** `add_active_word`: false, and no change, when the text is there already or no memory is found. The node keeps 29
        bytes of the text but goes to the chain of the whole text, and only the whole text is looked for; so a longer
        one leaves the table right only if both happen to agree. */
    method Add(w: Bytes, room: bool) returns (added: bool)
      requires Valid()
      modifies this, buckets
      ensures fresh(nodes - old(nodes))
      ensures added <==> w !in old(Words()) && room
      ensures Words() == (if added then old(Words()) + {Truncated(w, WORD_LIMIT)} else old(Words()))
      ensures totalCount == old(totalCount) + (if added then 1 else 0)
      ensures Valid() <==>
                !added || (Bucket(Truncated(w, WORD_LIMIT)) == Bucket(w) && Truncated(w, WORD_LIMIT) !in old(Words()))
      ensures |w| <= WORD_LIMIT ==> Valid()
    {
      var index, _, current, _ := Find(w);
      added := current == null && room;
      if added { Prepend(index, Truncated(w, WORD_LIMIT)); }
    }

    /** The node at place k of its chain is bypassed. */
    method Bypass(index: nat, prev: Node?, current: Node, ghost k: nat)
      requires Valid() && index < HASH_TABLE_SIZE && k < |chains[index]| && current == chains[index][k]
      requires prev == (if k == 0 then null else chains[index][k - 1])
      modifies this, buckets, nodes
      ensures Valid() && nodes <= old(nodes) && Words() == old(Words()) - {current.word}
    {
      Apart(index);
      assert TextsOk(chains[index], index);
      LinkPast(index, prev, current, k);
      DropOk(old(chains), old(nodes), index, k, chains);
    }

    /** `remove_active_word`: false, and no change, when the text is not there. */
    method Remove(w: Bytes) returns (removed: bool)
      requires Valid()
      modifies this, buckets, nodes
      ensures Valid() && nodes <= old(nodes)
      ensures removed <==> w in old(Words())
      ensures Words() == old(Words()) - {w}
    {
      var index, prev, current, k := Find(w);
      removed := current != null;
      if current != null { Bypass(index, prev, current, k); }
    }

    /** Chains do not share nodes. */
    lemma Apart(index: nat)
      requires Valid() && index < HASH_TABLE_SIZE
      ensures forall i, j, k ::
                0 <= i < HASH_TABLE_SIZE && i != index && 0 <= j < |chains[i]| && 0 <= k < |chains[index]|
                ==> chains[i][j] != chains[index][k]
    {
      forall i, j, k | 0 <= i < HASH_TABLE_SIZE && i != index && 0 <= j < |chains[i]| && 0 <= k < |chains[index]|
        ensures chains[i][j] != chains[index][k]
      {
        assert TextsOk(chains[i], i) && TextsOk(chains[index], index);
      }
    }
  }
}
