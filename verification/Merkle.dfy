/**
 Merkle selective disclosure (merkle.py): the padded tree, the per-field proofs
 and their verifier. Completeness and exactness are proved for every document
 and every proof, of whatever length, under an injective digest.
 */
module Merkle {
  import opened Wrappers
  import opened Ordering
  import opened Text
  import opened Canonical

  type Document = map<string, Json>

  /** A proof step; `hash` is `None` when the step carries no string there. */
  datatype Step = Step(hash: Option<string>, left: bool)

  datatype FieldProof = FieldProof(value: Json, root: string, proof: seq<Step>)

  datatype Disclosure = Disclosure(field: string, value: Json, proof: seq<Step>)

  datatype RedactionError = UnknownField | NothingVisible

  datatype Redaction = Redaction(typ: string, schemaVersion: string, root: string, visible: seq<Disclosure>)

  // ---- nodes ----

  function LeafJson(field: string, value: Json): Json {
    Obj(map["field" := Str(field), "value" := value])
  }

  function NodeJson(left: string, right: string): Json {
    Obj(map["left" := Str(left), "right" := Str(right)])
  }

  const PAD_JSON: Json := Obj(map["pad" := Bool(true)])

  /** The three kinds of hash a tree is made of. */
  datatype Hashing = Hashing(leaf: (string, Json) -> string, node: (string, string) -> string, pad: string)

  /** `_leaf`, `_node` and the pad digest over a document hash. */
  function HashingOf(hash: Hash): Hashing {
    Hashing((field, value) => Digest(hash, LeafJson(field, value)),
            (left, right) => Digest(hash, NodeJson(left, right)),
            Digest(hash, PAD_JSON))
  }

  /** Each hash fixes its parts, and leaves, inner nodes and the pad never coincide. */
  ghost predicate Separated(h: Hashing) {
    && (forall f, v, f', v' :: h.leaf(f, v) == h.leaf(f', v') ==> f == f' && v == v')
    && (forall l, r, l', r' :: h.node(l, r) == h.node(l', r') ==> l == l' && r == r')
    && (forall f, v, l, r :: h.leaf(f, v) != h.node(l, r))
    && (forall f, v :: h.leaf(f, v) != h.pad)
    && (forall l, r :: h.node(l, r) != h.pad)
  }

  lemma NodeDocumentsDiffer(f: string, v: Json, f': string, v': Json, l: string, r: string, l': string, r': string)
    ensures LeafJson(f, v) == LeafJson(f', v') ==> f == f' && v == v'
    ensures NodeJson(l, r) == NodeJson(l', r') ==> l == l' && r == r'
    ensures LeafJson(f, v) != NodeJson(l, r) && LeafJson(f, v) != PAD_JSON && NodeJson(l, r) != PAD_JSON
  {
    var leaf, leaf', node, node' := LeafJson(f, v), LeafJson(f', v'), NodeJson(l, r), NodeJson(l', r');
    assert "field" in leaf.members && "field" !in node.members && "field" !in PAD_JSON.members;
    assert "left" in node.members && "left" !in PAD_JSON.members;
    if leaf == leaf' {
      assert leaf.members["field"] == leaf'.members["field"] && leaf.members["value"] == leaf'.members["value"];
    }
    if node == node' {
      assert node.members["left"] == node'.members["left"] && node.members["right"] == node'.members["right"];
    }
  }

  lemma HashingSeparated(hash: Hash)
    requires Injective(hash)
    ensures Separated(HashingOf(hash))
  {
    var h := HashingOf(hash);
    forall f, v, f', v' | h.leaf(f, v) == h.leaf(f', v') ensures f == f' && v == v' {
      NodeDocumentsDiffer(f, v, f', v', "", "", "", "");
      DigestsDiffer(hash, LeafJson(f, v), LeafJson(f', v'));
    }
    forall l, r, l', r' | h.node(l, r) == h.node(l', r') ensures l == l' && r == r' {
      NodeDocumentsDiffer("", Null, "", Null, l, r, l', r');
      DigestsDiffer(hash, NodeJson(l, r), NodeJson(l', r'));
    }
    forall f, v, l, r ensures h.leaf(f, v) != h.node(l, r) {
      NodeDocumentsDiffer(f, v, f, v, l, r, l, r);
      DigestsDiffer(hash, LeafJson(f, v), NodeJson(l, r));
    }
    forall f, v ensures h.leaf(f, v) != h.pad {
      NodeDocumentsDiffer(f, v, f, v, "", "", "", "");
      DigestsDiffer(hash, LeafJson(f, v), PAD_JSON);
    }
    forall l, r ensures h.node(l, r) != h.pad {
      NodeDocumentsDiffer("", Null, "", Null, l, r, l, r);
      DigestsDiffer(hash, NodeJson(l, r), PAD_JSON);
    }
  }

  lemma DigestsDiffer(hash: Hash, v: Json, w: Json)
    requires Injective(hash)
    ensures Digest(hash, v) == Digest(hash, w) ==> v == w
  {
    if Digest(hash, v) == Digest(hash, w) { DigestInjective(hash, v, w); }
  }

  // ---- the tree ----

  ghost predicate IsPowerOfTwo(n: nat) {
    n == 1 || (n > 1 && n % 2 == 0 && IsPowerOfTwo(n / 2))
  }

  /** The least power of two that is at least `size` (1 for the empty document). */
  method PadToPowerOfTwo(size: nat) returns (power: nat)
    ensures IsPowerOfTwo(power) && size <= power
    ensures forall p: nat :: IsPowerOfTwo(p) && size <= p ==> power <= p
  {
    power := 1;
    while power < size
      invariant power >= 1 && IsPowerOfTwo(power)
      invariant power == 1 || power / 2 < size
      decreases size - power
    {
      power := power * 2;
    }
    forall p: nat | IsPowerOfTwo(p) && size <= p ensures power <= p {
      if p < power { PowersApart(p, power); }
    }
  }

  lemma {:induction false} PowersApart(p: nat, q: nat)
    requires IsPowerOfTwo(p) && IsPowerOfTwo(q) && p < q
    ensures p <= q / 2
  {
    if p > 1 { PowersApart(p / 2, q / 2); }
  }

  function Pairs(h: Hashing, layer: seq<string>): (r: seq<string>)
    requires |layer| % 2 == 0
    ensures |r| == |layer| / 2
  {
    seq(|layer| / 2, i requires 0 <= i < |layer| / 2 => h.node(layer[2 * i], layer[2 * i + 1]))
  }

  /** Layers from the padded leaves up: each layer is the hashed pairs of the one below it. */
  ghost predicate WellLayered(h: Hashing, layers: seq<seq<string>>) {
    && layers != []
    && (forall k :: 0 <= k < |layers| ==> IsPowerOfTwo(|layers[k]|))
    && (forall k :: 0 < k < |layers| ==> |layers[k - 1]| == 2 * |layers[k]| && layers[k] == Pairs(h, layers[k - 1]))
  }

  lemma NextLayer(h: Hashing, layers: seq<seq<string>>)
    requires WellLayered(h, layers) && |layers[|layers| - 1]| > 1
    ensures |layers[|layers| - 1]| % 2 == 0
    ensures WellLayered(h, layers + [Pairs(h, layers[|layers| - 1])])
  {
    var top := layers[|layers| - 1];
    assert IsPowerOfTwo(|top|);
    var more := layers + [Pairs(h, top)];
    forall k | 0 < k < |more| ensures |more[k - 1]| == 2 * |more[k]| && more[k] == Pairs(h, more[k - 1]) {
      if k < |layers| { assert |layers[k - 1]| == 2 * |layers[k]|; }
    }
  }

  method BuildTree(h: Hashing, leaves: seq<string>) returns (root: string, layers: seq<seq<string>>)
    ensures WellLayered(h, layers) && |layers[|layers| - 1]| == 1 && root == layers[|layers| - 1][0]
    ensures |leaves| <= |layers[0]| && layers[0][..|leaves|] == leaves
    ensures forall i :: |leaves| <= i < |layers[0]| ==> layers[0][i] == h.pad
  {
    var size := PadToPowerOfTwo(|leaves|);
    layers := [leaves + seq(size - |leaves|, _ => h.pad)];
    while |layers[|layers| - 1]| > 1
      invariant WellLayered(h, layers)
      invariant layers[0] == leaves + seq(size - |leaves|, _ => h.pad)
      decreases |layers[|layers| - 1]|
    {
      var current := layers[|layers| - 1];
      NextLayer(h, layers);
      layers := layers + [Pairs(h, current)];
    }
    root := layers[|layers| - 1][0];
  }

  // ---- proofs ----

  /** `position ^ 1` */
  function Sibling(position: nat): nat {
    if position % 2 == 0 then position + 1 else position - 1
  }

  function StepAt(h: Hashing, layer: seq<string>, position: nat): Step {
    var sibling := Sibling(position);
    Step(Some(if sibling < |layer| then layer[sibling] else h.pad), sibling < position)
  }

  /** The path from `position` in layer `k` up to the root. */
  function PathFrom(h: Hashing, layers: seq<seq<string>>, k: nat, position: nat): seq<Step>
    decreases |layers| - k
  {
    if k + 1 >= |layers| then []
    else [StepAt(h, layers[k], position)] + PathFrom(h, layers, k + 1, position / 2)
  }

  /** The verifier's running hash; `None` once a step carries no hash. */
  function Fold(h: Hashing, current: string, proof: seq<Step>): Option<string>
    decreases |proof|
  {
    if proof == [] then Some(current)
    else
      match proof[0].hash
      case None => None
      case Some(sibling) =>
        Fold(h, if proof[0].left then h.node(sibling, current) else h.node(current, sibling), proof[1..])
  }

  method VerifyField(h: Hashing, root: string, field: string, value: Json, proof: seq<Step>) returns (ok: bool)
    ensures ok == (Fold(h, h.leaf(field, value), proof) == Some(root))
  {
    var current := h.leaf(field, value);
    for i := 0 to |proof|
      invariant Fold(h, h.leaf(field, value), proof) == Fold(h, current, proof[i..])
    {
      if proof[i].hash.None? { return false; }
      var sibling := proof[i].hash.value;
      if proof[i].left {
        current := h.node(sibling, current);
      } else {
        current := h.node(current, sibling);
      }
    }
    ok := current == root;
  }

  /** Code-point order of the field names, as Python sorts them. */
  function FieldNames(document: Document): (r: seq<string>)
    ensures |r| == |document|
    ensures forall f :: f in r <==> f in document
    ensures forall i, j :: 0 <= i < j < |r| ==> r[i] != r[j]
  {
    CodePointsDistinct(document.Keys);
    var r := SortedSet(document.Keys, CodePoints);
    assert forall i, j :: 0 <= i < j < |r| ==> r[i] != r[j] by {
      forall i, j | 0 <= i < j < |r| ensures r[i] != r[j] { LessIrreflexive(CodePoints(r[i])); }
    }
    r
  }

  /** What the prover promises of `root`: it heads a well-formed tree over the document's leaves. */
  ghost predicate TreeOver(h: Hashing, document: Document, layers: seq<seq<string>>) {
    var fields := FieldNames(document);
    && WellLayered(h, layers) && |layers[|layers| - 1]| == 1
    && |fields| <= |layers[0]|
    && (forall i :: 0 <= i < |fields| ==> layers[0][i] == h.leaf(fields[i], document[fields[i]]))
    && (forall i :: |fields| <= i < |layers[0]| ==> layers[0][i] == h.pad)
  }

  ghost predicate IsRoot(h: Hashing, document: Document, root: string) {
    exists layers :: TreeOver(h, document, layers) && root == layers[|layers| - 1][0]
  }

  /** Below the root every position has its sibling in the layer, so the pad fallback is never taken. */
  lemma SiblingInLayer(h: Hashing, layers: seq<seq<string>>, k: nat, position: nat)
    requires WellLayered(h, layers) && k + 1 < |layers| && position < |layers[k]|
    ensures Sibling(position) < |layers[k]| && position / 2 < |layers[k + 1]|
    ensures var step := StepAt(h, layers[k], position);
      layers[k + 1][position / 2] == if step.left then h.node(step.hash.value, layers[k][position])
                                     else h.node(layers[k][position], step.hash.value)
  {
    assert |layers[k + 1 - 1]| == 2 * |layers[k + 1]| && layers[k + 1] == Pairs(h, layers[k + 1 - 1]);
    assert position == 2 * (position / 2) + position % 2;
  }

  lemma FoldStep(h: Hashing, current: string, step: Step, more: seq<Step>)
    requires step.hash.Some?
    ensures Fold(h, current, [step] + more)
         == Fold(h, if step.left then h.node(step.hash.value, current) else h.node(current, step.hash.value), more)
  {
    assert ([step] + more)[1..] == more;
  }

  lemma {:induction false} PathVerifies(h: Hashing, layers: seq<seq<string>>, k: nat, position: nat)
    requires WellLayered(h, layers) && |layers[|layers| - 1]| == 1
    requires k < |layers| && position < |layers[k]|
    ensures Fold(h, layers[k][position], PathFrom(h, layers, k, position)) == Some(layers[|layers| - 1][0])
    decreases |layers| - k
  {
    if k + 1 < |layers| {
      SiblingInLayer(h, layers, k, position);
      PathVerifies(h, layers, k + 1, position / 2);
      FoldStep(h, layers[k][position], StepAt(h, layers[k], position), PathFrom(h, layers, k + 1, position / 2));
    }
  }

  lemma PathStep(h: Hashing, layers: seq<seq<string>>, k: nat, position: nat, path: seq<Step>)
    requires k + 1 < |layers|
    ensures path + PathFrom(h, layers, k, position)
         == path + [StepAt(h, layers[k], position)] + PathFrom(h, layers, k + 1, position / 2)
  {
  }

  /** The entry carries the value and a path from that value's leaf to the root. */
  ghost predicate Proves(h: Hashing, field: string, value: Json, root: string, p: FieldProof) {
    p.value == value && p.root == root && Fold(h, h.leaf(field, value), p.proof) == Some(root)
  }

  method MerkleProofs(h: Hashing, document: Document) returns (proofs: map<string, FieldProof>, root: string)
    ensures IsRoot(h, document, root)
    ensures proofs.Keys == document.Keys
    ensures forall f :: f in document ==> Proves(h, f, document[f], root, proofs[f])
  {
    var fields := FieldNames(document);
    var leaves := seq(|fields|, i requires 0 <= i < |fields| => h.leaf(fields[i], document[fields[i]]));
    var layers;
    root, layers := BuildTree(h, leaves);
    assert forall i :: 0 <= i < |fields| ==> layers[0][i] == layers[0][..|leaves|][i];
    assert TreeOver(h, document, layers);
    proofs := ProveFields(h, document, fields, layers);
  }

  /** The outer loop of `merkle_proofs`. */
  method ProveFields(h: Hashing, document: Document, fields: seq<string>, layers: seq<seq<string>>)
    returns (proofs: map<string, FieldProof>)
    requires WellLayered(h, layers) && |layers[|layers| - 1]| == 1 && |fields| <= |layers[0]|
    requires forall f :: f in fields <==> f in document
    requires forall i :: 0 <= i < |fields| ==> layers[0][i] == h.leaf(fields[i], document[fields[i]])
    ensures proofs.Keys == document.Keys
    ensures forall f :: f in document ==> Proves(h, f, document[f], layers[|layers| - 1][0], proofs[f])
  {
    var root := layers[|layers| - 1][0];
    proofs := map[];
    for index := 0 to |fields|
      invariant forall f :: f in proofs ==> f in document && Proves(h, f, document[f], root, proofs[f])
      invariant forall i :: 0 <= i < index ==> fields[i] in proofs
    {
      var field := fields[index];
      var path := FieldPath(h, layers, index);
      proofs := proofs[field := FieldProof(document[field], root, path)];
    }
  }

  /** The inner loop of `merkle_proofs`: siblings from the leaf layer up. */
  method FieldPath(h: Hashing, layers: seq<seq<string>>, index: nat) returns (path: seq<Step>)
    requires WellLayered(h, layers) && |layers[|layers| - 1]| == 1 && index < |layers[0]|
    ensures |path| == |layers| - 1
    ensures Fold(h, layers[0][index], path) == Some(layers[|layers| - 1][0])
  {
    path := [];
    var position := index;
    for layerIndex := 0 to |layers| - 1
      invariant 0 <= position < |layers[layerIndex]|
      invariant |path| == layerIndex
      invariant path + PathFrom(h, layers, layerIndex, position) == PathFrom(h, layers, 0, index)
    {
      var layer := layers[layerIndex];
      SiblingInLayer(h, layers, layerIndex, position);
      PathStep(h, layers, layerIndex, position, path);
      path := path + [StepAt(h, layer, position)];
      position := position / 2;
    }
    assert path == PathFrom(h, layers, 0, index);
    PathVerifies(h, layers, 0, index);
  }

  // ---- exactness ----

  lemma {:induction false} FoldLast(h: Hashing, current: string, proof: seq<Step>)
    requires proof != [] && Fold(h, current, proof).Some?
    decreases |proof|
    ensures var last := proof[|proof| - 1]; var before := Fold(h, current, proof[..|proof| - 1]);
      && last.hash.Some? && before.Some?
      && Fold(h, current, proof).value == if last.left then h.node(last.hash.value, before.value)
                                          else h.node(before.value, last.hash.value)
  {
    var sibling := proof[0].hash.value;
    var next := if proof[0].left then h.node(sibling, current) else h.node(current, sibling);
    if |proof| == 1 {
      assert proof[1..] == [] && proof[..0] == [];
    } else {
      FoldLast(h, next, proof[1..]);
      assert proof[1..][..|proof| - 2] == proof[..|proof| - 1][1..];
    }
  }

  /** Nothing that was hashed from two parts can be a leaf or a pad. */
  lemma FoldedIsNotLeaf(h: Hashing, document: Document, layers: seq<seq<string>>, i: nat, current: string, proof: seq<Step>)
    requires Separated(h) && TreeOver(h, document, layers) && i < |layers[0]|
    requires proof != []
    ensures Fold(h, current, proof) != Some(layers[0][i])
  {
    if Fold(h, current, proof) == Some(layers[0][i]) {
      FoldLast(h, current, proof);
    }
  }

  /** The last step towards layer `k` came from one of the two children it hashes. */
  lemma LastStepDescends(h: Hashing, layers: seq<seq<string>>, k: nat, i: nat, current: string, proof: seq<Step>)
    returns (child: nat)
    requires Separated(h) && WellLayered(h, layers) && 0 < k < |layers| && i < |layers[k]|
    requires proof != [] && Fold(h, current, proof) == Some(layers[k][i])
    ensures child < |layers[k - 1]| && Fold(h, current, proof[..|proof| - 1]) == Some(layers[k - 1][child])
  {
    assert |layers[k - 1]| == 2 * |layers[k]| && layers[k] == Pairs(h, layers[k - 1]);
    var l, r := layers[k - 1][2 * i], layers[k - 1][2 * i + 1];
    FoldLast(h, current, proof);
    var last, before := proof[|proof| - 1], Fold(h, current, proof[..|proof| - 1]).value;
    if last.left {
      child := 2 * i + 1;
    } else {
      child := 2 * i;
    }
  }

  /** A chain of hashes from a leaf that reaches layer `k` took exactly `k` steps and started in the leaf layer. */
  lemma {:induction false} ReachesLayer(h: Hashing, document: Document, layers: seq<seq<string>>, k: nat, i: nat,
                                        field: string, value: Json, proof: seq<Step>)
    requires Separated(h) && TreeOver(h, document, layers)
    requires k < |layers| && i < |layers[k]|
    requires Fold(h, h.leaf(field, value), proof) == Some(layers[k][i])
    ensures |proof| == k && h.leaf(field, value) in layers[0]
    decreases k
  {
    var leaf := h.leaf(field, value);
    if k == 0 {
      if proof != [] { FoldedIsNotLeaf(h, document, layers, i, leaf, proof); }
    } else {
      assert |layers[k - 1]| == 2 * |layers[k]| && layers[k] == Pairs(h, layers[k - 1]);
      assert proof != [];
      var child := LastStepDescends(h, layers, k, i, leaf, proof);
      ReachesLayer(h, document, layers, k - 1, child, field, value, proof[..|proof| - 1]);
    }
  }

  /** An accepted proof, of whatever length, is a proof of a field the document holds with that value. */
  lemma {:induction false} ProofsAreExact(h: Hashing, document: Document, root: string, field: string, value: Json, proof: seq<Step>)
    requires Separated(h) && IsRoot(h, document, root)
    requires Fold(h, h.leaf(field, value), proof) == Some(root)
    ensures field in document && document[field] == value
  {
    var layers :| TreeOver(h, document, layers) && root == layers[|layers| - 1][0];
    ReachesLayer(h, document, layers, |layers| - 1, 0, field, value, proof);
    var i :| 0 <= i < |layers[0]| && layers[0][i] == h.leaf(field, value);
  }

  /** Two documents with a common root are the same document. */
  lemma {:induction false} RootDeterminesDocument(h: Hashing, a: Document, b: Document, root: string)
    requires Separated(h) && IsRoot(h, a, root) && IsRoot(h, b, root)
    ensures a == b
  {
    RootContains(h, a, b, root);
    RootContains(h, b, a, root);
  }

  lemma {:induction false} RootContains(h: Hashing, a: Document, b: Document, root: string)
    requires Separated(h) && IsRoot(h, a, root) && IsRoot(h, b, root)
    ensures forall f :: f in a ==> f in b && a[f] == b[f]
  {
    var layers :| TreeOver(h, a, layers) && root == layers[|layers| - 1][0];
    var fields := FieldNames(a);
    forall f | f in a ensures f in b && a[f] == b[f] {
      var i :| 0 <= i < |fields| && fields[i] == f;
      PathVerifies(h, layers, 0, i);
      ProofsAreExact(h, b, root, f, a[f], PathFrom(h, layers, 0, i));
    }
  }

  // ---- redaction ----

  method MerkleRedact(h: Hashing, document: Document, visible: seq<string>) returns (r: Result<Redaction, RedactionError>)
    ensures r.Success? <==> visible != [] && forall f :: f in visible ==> f in document
    ensures r.Success? ==>
      && Accepts(h, r.value) && IsRoot(h, document, r.value.root)
      && |r.value.visible| == |visible|
      && forall i :: 0 <= i < |visible| ==> Reveals(h, document, r.value.root, visible[i], r.value.visible[i])
  {
    var proofs, root := MerkleProofs(h, document);
    var revealed := Reveal(h, document, root, proofs, visible);
    if revealed.None? { return Failure(UnknownField); }
    if visible == [] { return Failure(NothingVisible); }
    r := Success(Redaction("kinegrant:MerkleRedaction", "0.1", root, revealed.value));
    forall d | d in revealed.value ensures Shows(h, root, d) {
      var i :| 0 <= i < |revealed.value| && revealed.value[i] == d;
      assert Reveals(h, document, root, visible[i], d);
    }
  }

  /** The loop of `merkle_redact`: a disclosure per visible field, or nothing at the first unknown one. */
  method Reveal(h: Hashing, document: Document, root: string, proofs: map<string, FieldProof>, visible: seq<string>)
    returns (revealed: Option<seq<Disclosure>>)
    requires proofs.Keys == document.Keys
    requires forall f :: f in document ==> Proves(h, f, document[f], root, proofs[f])
    ensures revealed.Some? <==> forall f :: f in visible ==> f in document
    ensures revealed.Some? ==> |revealed.value| == |visible|
    ensures revealed.Some? ==>
      forall i :: 0 <= i < |visible| ==> Reveals(h, document, root, visible[i], revealed.value[i])
  {
    var shown: seq<Disclosure> := [];
    for i := 0 to |visible|
      invariant |shown| == i
      invariant forall j :: 0 <= j < i ==> Reveals(h, document, root, visible[j], shown[j])
    {
      var field := visible[i];
      if field !in proofs { return None; }
      var entry := proofs[field];
      var d := Disclosure(field, entry.value, entry.proof);
      assert Reveals(h, document, root, field, d);
      shown := shown + [d];
    }
    revealed := Some(shown);
  }

  /** The disclosure shows the document's own value of the field, with a proof that verifies. */
  ghost predicate Reveals(h: Hashing, document: Document, root: string, field: string, d: Disclosure) {
    field in document && d.field == field && d.value == document[field] && Shows(h, root, d)
  }

  /** `verify_merkle_redaction` */
  predicate Accepts(h: Hashing, r: Redaction) {
    && r.typ == "kinegrant:MerkleRedaction" && r.schemaVersion == "0.1" && r.visible != []
    && forall d :: d in r.visible ==> Shows(h, r.root, d)
  }

  predicate Shows(h: Hashing, root: string, d: Disclosure) {
    Fold(h, h.leaf(d.field, d.value), d.proof) == Some(root)
  }

  /** Whatever an accepted redaction of a document's root shows is in the document. */
  lemma RedactionIsExact(h: Hashing, document: Document, r: Redaction)
    requires Separated(h) && IsRoot(h, document, r.root) && Accepts(h, r)
    ensures forall d :: d in r.visible ==> d.field in document && document[d.field] == d.value
  {
    forall d | d in r.visible ensures d.field in document && document[d.field] == d.value {
      ProofsAreExact(h, document, r.root, d.field, d.value, d.proof);
    }
  }

  /** The same for the hashing the source uses: SHA-256 over canonical bytes. */
  lemma {:induction false} DisclosureIsExact(sha256: Sha256, document: Document, root: string, field: string, value: Json, proof: seq<Step>)
    requires CollisionFree(sha256)
    ensures var h := HashingOf(CanonicalHash(sha256));
      IsRoot(h, document, root) && Fold(h, h.leaf(field, value), proof) == Some(root) ==>
        field in document && document[field] == value
  {
    var h := HashingOf(CanonicalHash(sha256));
    CanonicalHashInjective(sha256);
    HashingSeparated(CanonicalHash(sha256));
    if IsRoot(h, document, root) && Fold(h, h.leaf(field, value), proof) == Some(root) {
      ProofsAreExact(h, document, root, field, value, proof);
    }
  }
}
