/**
  contentNodeShifter of hugolib/content_map_page.go: what a key of a content tree holds for the languages of the
  site, in four run-time shapes, and the tree operations of hugolib/doctree/nodeshifttree.go on top of it.
 */
module NodeShifter {
  datatype Kind = PageState | ResourceSource

  /** A page or a resource of one language. `content` says of a resource that it is a page of its own. */
  class Leaf {
    const kind: Kind
    const lang: nat
    const content: bool
    var stale: bool

    constructor (kind: Kind, lang: nat, content: bool)
      ensures this.kind == kind && this.lang == lang && this.content == content && !stale
    {
      this.kind, this.lang, this.content, stale := kind, lang, content, false;
    }
  }

  /** The four shapes: a single page or resource, or one slot for each language. */
  datatype Node = Page(leaf: Leaf) | Resource(leaf: Leaf) | Pages(slots: array<Leaf?>) | Resources(slots: array<Leaf?>)

  function KindOf(n: Node): Kind
  {
    if n.Page? || n.Pages? then PageState else ResourceSource
  }

  ghost function Arrays(n: Node): set<array<Leaf?>>
  {
    if n.Pages? || n.Resources? then {n.slots} else {}
  }

  ghost predicate ValidNode(n: Node, numLanguages: nat)
    reads Arrays(n)
  {
    match n
    case Page(leaf) => leaf.kind == PageState && leaf.lang < numLanguages
    case Resource(leaf) => leaf.kind == ResourceSource && leaf.lang < numLanguages
    case Pages(slots) => slots.Length == numLanguages
    case Resources(slots) => slots.Length == numLanguages
  }

  /** What the node stands for: a map from language to page or resource. */
  ghost function View(n: Node): (view: map<nat, Leaf>)
    reads Arrays(n)
  {
    match n
    case Page(leaf) => map[leaf.lang := leaf]
    case Resource(leaf) => map[leaf.lang := leaf]
    case Pages(slots) => SlotsView(slots[..])
    case Resources(slots) => SlotsView(slots[..])
  }

  ghost function SlotsView(slots: seq<Leaf?>): map<nat, Leaf>
  {
    map l: nat | l < |slots| && slots[l] != null :: slots[l]
  }

  lemma SlotsViewUpdate(slots: seq<Leaf?>, l: nat, leaf: Leaf?)
    requires l < |slots|
    ensures SlotsView(slots[l := leaf]) == if leaf == null then SlotsView(slots) - {l} else SlotsView(slots)[l := leaf]
  {}

  /** What the map has for a language. */
  function Entry(view: map<nat, Leaf>, lang: nat): Leaf?
  {
    if lang in view then view[lang] else null
  }

  predicate Single(n: Node)
  {
    n.Page? || n.Resource?
  }

  /** A single leaf of a language other than the one that is inserted. */
  predicate Foreign(n: Node, lang: nat)
  {
    Single(n) && n.leaf.lang != lang
  }

  /** A single leaf of the language `lang` gives way to one of another language. */
  predicate PushesOut(n: Node, leaf: Leaf, lang: nat)
  {
    Single(n) && n.leaf.lang == lang && leaf.lang != lang
  }

  /** The outcome of an insertion: the node to store, the value reported as existing and whether it counts as replaced. */
  datatype Inserted = Inserted(node: Node, existing: Leaf?, replaced: bool) | WrongType

  datatype Deleted = Deleted(leaf: Leaf?, wasDeleted: bool, isEmpty: bool)

  /** `accurate` is the language flag of a match in the language asked for. */
  datatype Shifted = Shifted(leaf: Leaf?, found: bool, accurate: bool)

  method MarkStale(leaf: Leaf?)
    modifies leaf
    ensures leaf != null ==> leaf.stale
  {
    if leaf != null {
      leaf.stale := true;
    }
  }

  method NewSlots(numLanguages: nat, l1: nat, leaf1: Leaf, l2: nat, leaf2: Leaf) returns (slots: array<Leaf?>)
    requires l1 < numLanguages && l2 < numLanguages
    ensures fresh(slots) && slots.Length == numLanguages
    ensures SlotsView(slots[..]) == map[l1 := leaf1][l2 := leaf2]
  {
    slots := new Leaf?[numLanguages](_ => null);
    slots[l1] := leaf1;
    slots[l2] := leaf2;
  }

  ghost function Leaves(n: Node): set<Leaf>
    reads Arrays(n)
  {
    View(n).Values
  }

  class Shifter {
    const numLanguages: nat

    constructor (numLanguages: nat)
      ensures this.numLanguages == numLanguages
    {
      this.numLanguages := numLanguages;
    }

    /**
      Inserts `leaf` under its own language; the leaf that it takes the place of, if another, is marked stale. The leaf
      reported as existing is the map's entry exactly unless the node is a single leaf of another language: then that
      leaf is reported, which stays where it is.
     */
    method Insert(n: Node, leaf: Leaf) returns (r: Inserted)
      requires ValidNode(n, numLanguages) && leaf.lang < numLanguages
      modifies Arrays(n), Leaves(n)
      ensures r == WrongType <==> leaf.kind != KindOf(n)
      ensures r == WrongType ==> View(n) == old(View(n))
      ensures r.Inserted? ==>
        && ValidNode(r.node, numLanguages) && KindOf(r.node) == KindOf(n)
        && (forall a :: a in Arrays(r.node) ==> fresh(a) || a in Arrays(n))
        && View(r.node) == old(View(n))[leaf.lang := leaf]
        && (r.replaced <==> leaf.lang in old(View(n)))
        && r.existing == (if Foreign(n, leaf.lang) then n.leaf else Entry(old(View(n)), leaf.lang))
        && (r.existing == Entry(old(View(n)), leaf.lang) <==> !Foreign(n, leaf.lang))
      ensures forall x :: x in old(Leaves(n)) ==>
        x.stale == (old(x.stale) || (r.Inserted? && r.replaced && x == r.existing && x != leaf))
    {
      if leaf.kind != KindOf(n) {
        return WrongType;
      }
      if Single(n) {
        assert View(n)[n.leaf.lang] == n.leaf;
        assert n.leaf in Leaves(n);
        r := InsertSingle(n, n.leaf, leaf);
      } else {
        assert n.slots[leaf.lang] != null ==> View(n)[leaf.lang] == n.slots[leaf.lang];
        assert n.slots[leaf.lang] != null ==> n.slots[leaf.lang] in Leaves(n);
        r := InsertSlot(n, n.slots, leaf);
      }
    }

    method InsertSingle(n: Node, was: Leaf, leaf: Leaf) returns (r: Inserted)
      requires ValidNode(n, numLanguages) && leaf.lang < numLanguages && leaf.kind == KindOf(n)
      requires n == Page(was) || n == Resource(was)
      modifies was
      ensures r.Inserted? && ValidNode(r.node, numLanguages) && KindOf(r.node) == KindOf(n)
      ensures forall a :: a in Arrays(r.node) ==> fresh(a)
      ensures View(r.node) == old(View(n))[leaf.lang := leaf]
      ensures r.existing == was && (r.replaced <==> leaf.lang == was.lang)
      ensures was.stale == (old(was.stale) || (r.replaced && was != leaf))
    {
      if was.lang == leaf.lang {
        if leaf != was {
          MarkStale(was);
        }
        return Inserted(if n.Page? then Page(leaf) else Resource(leaf), was, true);
      }
      var slots := NewSlots(numLanguages, leaf.lang, leaf, was.lang, was);
      return Inserted(if n.Page? then Pages(slots) else Resources(slots), was, false);
    }

    method InsertSlot(n: Node, slots: array<Leaf?>, leaf: Leaf) returns (r: Inserted)
      requires ValidNode(n, numLanguages) && leaf.lang < numLanguages && (n == Pages(slots) || n == Resources(slots))
      modifies slots, slots[leaf.lang]
      ensures r == Inserted(n, old(slots[leaf.lang]), old(slots[leaf.lang]) != null)
      ensures slots[..] == old(slots[..])[leaf.lang := leaf]
      ensures View(n) == old(View(n))[leaf.lang := leaf]
      ensures old(slots[leaf.lang]) != null ==>
        old(slots[leaf.lang]).stale == (old(slots[leaf.lang].stale) || old(slots[leaf.lang]) != leaf)
    {
      var was := slots[leaf.lang];
      if was != leaf {
        MarkStale(was);
      }
      slots[leaf.lang] := leaf;
      SlotsViewUpdate(old(slots[..]), leaf.lang, leaf);
      return Inserted(n, was, was != null);
    }

    /**
      Inserts `leaf` under the language `langi`. The value is where it should be, but a single leaf that is
      pushed out of `langi` by one of another language does not count as replaced, and the leaf reported as existing is
      the map's entry exactly unless the node is a single leaf of another language. Nothing is marked stale.
     */
    method InsertInto(n: Node, leaf: Leaf, langi: nat) returns (r: Inserted)
      requires ValidNode(n, numLanguages) && leaf.lang < numLanguages && langi < numLanguages
      modifies Arrays(n)
      ensures r == WrongType <==> leaf.kind != KindOf(n) && !n.Pages?
      ensures r == WrongType ==> View(n) == old(View(n))
      ensures r.Inserted? ==>
        && ValidNode(r.node, numLanguages) && KindOf(r.node) == KindOf(n)
        && (forall a :: a in Arrays(r.node) ==> fresh(a) || a in Arrays(n))
        && View(r.node) == old(View(n))[langi := leaf]
        && r.existing == (if Foreign(n, langi) then n.leaf else Entry(old(View(n)), langi))
        && (r.existing == Entry(old(View(n)), langi) <==> !Foreign(n, langi))
        && (r.replaced ==> langi in old(View(n)))
        && (r.replaced == (langi in old(View(n))) <==> !PushesOut(n, leaf, langi))
    {
      if leaf.kind != KindOf(n) && !n.Pages? {
        return WrongType;
      }
      if n.Page? || n.Resource? {
        var was := n.leaf;
        if was.lang == leaf.lang && leaf.lang == langi {
          return Inserted(if n.Page? then Page(leaf) else Resource(leaf), was, true);
        }
        var slots := NewSlots(numLanguages, was.lang, was, langi, leaf);
        return Inserted(if n.Page? then Pages(slots) else Resources(slots), was, false);
      }
      var was := n.slots[langi];
      n.slots[langi] := leaf;
      SlotsViewUpdate(old(n.slots[..]), langi, leaf);
      return Inserted(n, was, was != null);
    }

    /** Takes the language `lidx` out of the node. A single leaf stays in its node: an empty node is for the caller to drop. */
    method Delete(n: Node, lidx: nat) returns (r: Deleted)
      requires ValidNode(n, numLanguages) && lidx < numLanguages
      modifies Arrays(n), Leaves(n)
      ensures r.wasDeleted <==> lidx in old(View(n))
      ensures r.leaf == if lidx in old(View(n)) then old(View(n))[lidx] else null
      ensures r.isEmpty <==> old(View(n)) - {lidx} == map[]
      ensures !r.isEmpty ==> View(n) == old(View(n)) - {lidx}
      ensures forall x :: x in old(Leaves(n)) ==> x.stale == (old(x.stale) || x == r.leaf)
    {
      if n.Page? || n.Resource? {
        assert View(n)[n.leaf.lang] == n.leaf;
        if lidx != n.leaf.lang {
          assert n.leaf.lang in View(n) - {lidx};
          return Deleted(null, false, false);
        }
        MarkStale(n.leaf);
        return Deleted(n.leaf, true, true);
      }
      var deleted := n.slots[lidx];
      MarkStale(deleted);
      n.slots[lidx] := null;
      SlotsViewUpdate(old(n.slots[..]), lidx, null);
      var isEmpty := AllNil(n.slots);
      return Deleted(deleted, deleted != null, isEmpty);
    }

    /** The leaf for the language `lidx`; unless an exact match is asked for, a resource of another language may do. */
    method Shift(n: Node, lidx: nat, exact: bool) returns (r: Shifted)
      requires ValidNode(n, numLanguages) && lidx < numLanguages
      ensures r.accurate <==> lidx in View(n)
      ensures r.accurate ==> r.found && r.leaf == View(n)[lidx]
      ensures r.found <==> r.accurate || (!exact && KindOf(n) == ResourceSource && exists l :: FirstResource(View(n), l))
      ensures r.found && !r.accurate ==> exists l :: FirstResource(View(n), l) && r.leaf == View(n)[l]
      ensures !r.found ==> r.leaf == null
    {
      if n.Page? || n.Resource? {
        if n.leaf.lang == lidx {
          return Shifted(n.leaf, true, true);
        }
        if n.Resource? && !n.leaf.content && !exact {
          assert FirstResource(View(n), n.leaf.lang);
          return Shifted(n.leaf, true, false);
        }
        return Shifted(null, false, false);
      }
      if n.slots[lidx] != null {
        return Shifted(n.slots[lidx], true, true);
      }
      if n.Pages? || exact {
        return Shifted(null, false, false);
      }
      for l := 0 to n.slots.Length
        invariant forall j :: 0 <= j < l ==> n.slots[j] == null
      {
        if n.slots[l] != null {
          assert l in View(n) && forall j :: j in View(n) ==> l <= j;
          assert forall j :: FirstResource(View(n), j) ==> j == l;
          if n.slots[l].content {
            return Shifted(null, false, false);
          }
          assert FirstResource(View(n), l);
          return Shifted(n.slots[l], true, false);
        }
      }
      return Shifted(null, false, false);
    }
  }

  /** The leaf of the first language that has one is not a page. */
  ghost predicate FirstResource(view: map<nat, Leaf>, l: nat)
  {
    l in view && !view[l].content && forall j :: j in view ==> l <= j
  }

  method AllNil(slots: array<Leaf?>) returns (isEmpty: bool)
    ensures isEmpty <==> SlotsView(slots[..]) == map[]
  {
    for i := 0 to slots.Length
      invariant forall j :: 0 <= j < i ==> slots[j] == null
    {
      if slots[i] != null {
        assert i in SlotsView(slots[..]);
        return false;
      }
    }
    assert SlotsView(slots[..]) == map[];
    return true;
  }

  predicate IsForeign(root: map<string, Node>, key: string, lang: nat)
  {
    key in root && Foreign(root[key], lang)
  }

  /** The tree: one node for each key. No two keys share slots, and no key holds an empty node. */
  class Tree {
    const shifter: Shifter
    var root: map<string, Node>

    /** What the tree stands for: for each key, a map from language to page or resource. */
    ghost var contents: map<string, map<nat, Leaf>>
    ghost var repr: set<array<Leaf?>>

    constructor (shifter: Shifter)
      ensures Valid() && this.shifter == shifter && contents == map[] && fresh(repr)
    {
      this.shifter, root, contents, repr := shifter, map[], map[], {};
    }

    ghost predicate Represents(k: string)
      requires k in root
      reads this, repr
    {
      && Arrays(root[k]) <= repr && ValidNode(root[k], shifter.numLanguages)
      && k in contents && View(root[k]) == contents[k] && contents[k] != map[]
    }

    ghost predicate Separate()
      reads this
    {
      forall j, k :: j in root && k in root && j != k ==> Arrays(root[j]) !! Arrays(root[k])
    }

    ghost predicate ValidExcept(key: string)
      reads this, repr
    {
      && root.Keys == contents.Keys && Separate()
      && forall k :: k in root && k != key ==> Represents(k)
    }

    ghost predicate Valid()
      reads this, repr
    {
      && root.Keys == contents.Keys && Separate()
      && forall k :: k in root ==> Represents(k)
    }

    ghost function At(key: string): map<nat, Leaf>
      reads this
    {
      if key in contents then contents[key] else map[]
    }

    /** A change to the slots of one key leaves the other keys alone. */
    twostate lemma OthersKept(key: string)
      requires old(Valid()) && key in root
      requires root == old(root) && contents == old(contents) && repr == old(repr)
      requires forall a :: a in old(repr) && a !in Arrays(root[key]) ==> a[..] == old(a[..])
      ensures ValidExcept(key)
    {
      forall k | k in root && k != key ensures Represents(k) {
        assert old(Represents(k));
      }
    }

    /** Puts a node under a key, whatever was there. */
    method Store(key: string, n: Node)
      requires ValidExcept(key) && ValidNode(n, shifter.numLanguages) && View(n) != map[]
      requires forall a :: a in Arrays(n) ==> a !in repr || (key in root && a in Arrays(root[key]))
      modifies this
      ensures Valid() && root == old(root)[key := n] && contents == old(contents)[key := View(n)]
      ensures repr == old(repr) + Arrays(n)
    {
      assert forall k :: k in root && k != key ==> Represents(k) && Arrays(root[k]) !! Arrays(n);
      label before:
      root := root[key := n];
      contents := contents[key := View(n)];
      repr := repr + Arrays(n);
      forall k | k in root ensures Represents(k) {
        if k != key {
          assert old@before(Represents(k));
        }
      }
    }

    /** Inserts a leaf under the language that it has itself. */
    method InsertIntoValuesDimension(key: string, leaf: Leaf) returns (existing: Leaf?, updated: bool, wrongType: bool)
      requires Valid() && leaf.lang < shifter.numLanguages
      modifies this, repr, At(key).Values
      ensures Valid() && fresh(repr - old(repr))
      ensures wrongType <==> key in old(root) && leaf.kind != KindOf(old(root)[key])
      ensures wrongType ==> contents == old(contents)
      ensures !wrongType ==>
        && contents == old(contents)[key := old(At(key))[leaf.lang := leaf]]
        && (updated <==> leaf.lang in old(At(key)))
        && existing == (if IsForeign(old(root), key, leaf.lang) then old(root)[key].leaf else Entry(old(At(key)), leaf.lang))
        && (existing == Entry(old(At(key)), leaf.lang) <==> !IsForeign(old(root), key, leaf.lang))
      ensures forall x :: x in old(At(key)).Values ==>
        x.stale == (old(x.stale) || (!wrongType && updated && x == existing && x != leaf))
    {
      wrongType, existing, updated := false, null, false;
      if key in root {
        assert Represents(key);
        var r := shifter.Insert(root[key], leaf);
        OthersKept(key);
        if r == WrongType {
          wrongType := true;
        } else {
          existing, updated := r.existing, r.replaced;
          assert leaf.lang in View(r.node);
          Store(key, r.node);
        }
      } else {
        var n := if leaf.kind == PageState then Page(leaf) else Resource(leaf);
        assert leaf.lang in View(n);
        Store(key, n);
      }
    }

    /**
      Inserts a leaf under the language `dim` of the tree's shape; under a new key, though, it goes in as it is,
      which is under its own language.
     */
    method InsertIntoCurrentDimension(key: string, leaf: Leaf, dim: nat) returns (existing: Leaf?, updated: bool, wrongType: bool)
      requires Valid() && leaf.lang < shifter.numLanguages && dim < shifter.numLanguages
      modifies this, repr
      ensures Valid() && fresh(repr - old(repr))
      ensures wrongType <==> key in old(root) && leaf.kind != KindOf(old(root)[key]) && !old(root)[key].Pages?
      ensures wrongType ==> contents == old(contents)
      ensures !wrongType ==>
        && contents == old(contents)[key := old(At(key))[(if key in old(contents) then dim else leaf.lang) := leaf]]
        && existing == (if IsForeign(old(root), key, dim) then old(root)[key].leaf else Entry(old(At(key)), dim))
        && (existing == Entry(old(At(key)), dim) <==> !IsForeign(old(root), key, dim))
        && (updated ==> dim in old(At(key)))
        && (updated == (dim in old(At(key))) <==> !(key in old(root) && PushesOut(old(root)[key], leaf, dim)))
    {
      wrongType, existing, updated := false, null, false;
      if key in root {
        assert Represents(key);
        var r := shifter.InsertInto(root[key], leaf, dim);
        OthersKept(key);
        if r == WrongType {
          wrongType := true;
        } else {
          existing, updated := r.existing, r.replaced;
          assert dim in View(r.node);
          Store(key, r.node);
        }
      } else {
        var n := if leaf.kind == PageState then Page(leaf) else Resource(leaf);
        assert leaf.lang in View(n);
        Store(key, n);
      }
    }

    /** Notes what a key stands for after its slots have changed. */
    ghost method Refresh(key: string)
      requires ValidExcept(key) && key in root && Arrays(root[key]) <= repr
      requires ValidNode(root[key], shifter.numLanguages) && View(root[key]) != map[]
      modifies this`contents
      ensures Valid() && contents == old(contents)[key := View(root[key])]
    {
      assert forall k :: k in root && k != key ==> Represents(k);
      contents := contents[key := View(root[key])];
    }

    /** Takes the key out of the tree. */
    method Drop(key: string)
      requires ValidExcept(key)
      modifies this
      ensures Valid() && root == old(root) - {key} && contents == old(contents) - {key} && repr == old(repr)
    {
      assert forall k :: k in root && k != key ==> Represents(k);
      label before:
      root := root - {key};
      contents := contents - {key};
      forall k | k in root ensures Represents(k) {
        assert old@before(Represents(k));
      }
    }

    /** Takes the language `dim` out of a key, and the key out of the tree with its last language. */
    method Delete(key: string, dim: nat) returns (deleted: Leaf?, wasDeleted: bool)
      requires Valid() && dim < shifter.numLanguages
      modifies this, repr, At(key).Values
      ensures Valid() && repr == old(repr)
      ensures contents == if old(At(key)) - {dim} == map[] then old(contents) - {key}
                          else old(contents)[key := old(At(key)) - {dim}]
      ensures wasDeleted <==> dim in old(At(key))
      ensures wasDeleted ==> deleted == old(At(key))[dim]
      ensures forall x :: x in old(At(key)).Values ==> x.stale == (old(x.stale) || (wasDeleted && x == deleted))
    {
      deleted, wasDeleted := null, false;
      if key in root {
        assert Represents(key);
        var n := root[key];
        var r := shifter.Delete(n, dim);
        OthersKept(key);
        deleted, wasDeleted := r.leaf, r.wasDeleted;
        if r.isEmpty {
          Drop(key);
        } else {
          Refresh(key);
        }
      }
    }

    /** The leaf that a walk or a lookup in the language `dim` sees under a key. */
    method Get(key: string, dim: nat) returns (leaf: Leaf?)
      requires Valid() && dim < shifter.numLanguages
      ensures leaf == if dim in At(key) then At(key)[dim] else null
    {
      if key !in root {
        return null;
      }
      assert Represents(key);
      var r := shifter.Shift(root[key], dim, true);
      return r.leaf;
    }
  }
}
