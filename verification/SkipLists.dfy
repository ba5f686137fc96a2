/** The memtable's skip list (db/skiplist.h): links as they are stored, one atomic store at a time. Keys are distinct,
    so a node is named by its key. */
module SkipLists {
  const MAX_HEIGHT: nat := 12

  datatype Ref = Head | Node(key: int) | Nil

  /** max_height_ and the next_ arrays of the nodes allocated so far. */
  datatype Shape = Shape(maxHeight: nat, next: map<Ref, seq<Ref>>)

  predicate Comes(z: int, x: Ref) {
    match x
    case Head => true
    case Node(k) => k < z
    case Nil => false
  }

  /** y is what follows x in the ordered set s. */
  ghost predicate Follows(s: set<int>, x: Ref, y: Ref) {
    && !y.Head?
    && (y.Nil? ==> forall z :: z in s ==> !Comes(z, x))
    && (y.Node? ==> y.key in s && Comes(y.key, x) && forall z :: z in s && Comes(z, x) ==> y.key <= z)
  }

  predicate On(s: set<int>, x: Ref) {
    x.Head? || (x.Node? && x.key in s)
  }

  ghost predicate Chained(sh: Shape, s: set<int>, i: nat) {
    forall x: Ref :: On(s, x) ==> x in sh.next && i < |sh.next[x]| && Follows(s, x, sh.next[x][i])
  }

  /** linked[i] is the set of keys linked at level i: each level is the ordered list of its set, each level's set
      contains the next one's, and levels at or above max_height_ are empty. */
  ghost predicate Ok(sh: Shape, linked: seq<set<int>>) {
    && |linked| == MAX_HEIGHT && 1 <= sh.maxHeight <= MAX_HEIGHT
    && (forall i :: 0 <= i < MAX_HEIGHT ==> Chained(sh, linked[i], i))
    && (forall i, j :: 0 <= i <= j < MAX_HEIGHT ==> linked[j] <= linked[i])
    && (forall i :: sh.maxHeight <= i < MAX_HEIGHT ==> linked[i] == {})
  }

  // ---- The writer's stores -----------------------------------------------------------------------------------

  /** max_height_.store. */
  function StoreHeight(sh: Shape, height: nat): Shape {
    sh.(maxHeight := height)
  }

  /** NewNode: a node with links nobody can reach yet. */
  function NewNode(sh: Shape, key: int, height: nat): Shape {
    sh.(next := sh.next[Node(key) := seq(height, _ => Nil)])
  }

  predicate HasLink(sh: Shape, x: Ref, i: nat) {
    x in sh.next && i < |sh.next[x]|
  }

  function SetNext(sh: Shape, x: Ref, i: nat, y: Ref): Shape
    requires HasLink(sh, x, i)
  {
    sh.(next := sh.next[x := sh.next[x][i := y]])
  }

  /** The two stores of one level: the new node's own link, still private, and the one that publishes it. */
  function Publish(sh: Shape, key: int, prev: Ref, i: nat): Shape
    requires HasLink(sh, prev, i) && HasLink(sh, Node(key), i) && prev != Node(key)
  {
    SetNext(SetNext(sh, Node(key), i, sh.next[prev][i]), prev, i, Node(key))
  }

  /** prev is the last node of s before key. */
  ghost predicate Precedes(sh: Shape, s: set<int>, prev: Ref, i: nat, key: int) {
    && On(s, prev) && Comes(key, prev) && HasLink(sh, prev, i)
    && (sh.next[prev][i].Node? ==> key < sh.next[prev][i].key)
  }

  lemma PublishFollows(s: set<int>, prev: Ref, key: int, y: Ref, x: Ref, z: Ref)
    requires On(s, prev) && Comes(key, prev) && key !in s
    requires Follows(s, prev, y) && (y.Node? ==> key < y.key)
    requires On(s + {key}, x) && (On(s, x) ==> Follows(s, x, z))
    ensures Follows(s + {key}, x, if x == prev then Node(key) else if x == Node(key) then y else z)
  {
  }

  lemma PublishLinks(sh: Shape, key: int, prev: Ref, i: nat, x: Ref, j: nat)
    requires HasLink(sh, prev, i) && HasLink(sh, Node(key), i) && prev != Node(key) && HasLink(sh, x, j)
    ensures var after := Publish(sh, key, prev, i);
            HasLink(after, x, j)
            && after.next[x][j] == if j == i && x == prev then Node(key)
                                   else if j == i && x == Node(key) then sh.next[prev][i] else sh.next[x][j]
  {
  }

  lemma PublishThisLevel(sh: Shape, s: set<int>, key: int, prev: Ref, i: nat)
    requires Chained(sh, s, i) && Precedes(sh, s, prev, i, key) && key !in s && HasLink(sh, Node(key), i)
    ensures prev != Node(key) && Chained(Publish(sh, key, prev, i), s + {key}, i)
  {
    hide Publish, Follows;
    forall x: Ref | On(s + {key}, x)
      ensures HasLink(Publish(sh, key, prev, i), x, i) && Follows(s + {key}, x, Publish(sh, key, prev, i).next[x][i])
    {
      PublishLinks(sh, key, prev, i, x, i);
      PublishFollows(s, prev, key, sh.next[prev][i], x, sh.next[x][i]);
    }
  }

  lemma PublishOtherLevel(sh: Shape, s: set<int>, key: int, prev: Ref, i: nat, j: nat)
    requires Chained(sh, s, j) && i != j && HasLink(sh, prev, i) && HasLink(sh, Node(key), i) && prev != Node(key)
    ensures Chained(Publish(sh, key, prev, i), s, j)
  {
    hide Publish, Follows;
    forall x: Ref | On(s, x)
      ensures HasLink(Publish(sh, key, prev, i), x, j) && Follows(s, x, Publish(sh, key, prev, i).next[x][j])
    {
      PublishLinks(sh, key, prev, i, x, j);
    }
  }

  /** Publishing at level i links the key there; level i stays ordered and every other level as it was. */
  lemma PublishKeeps(sh: Shape, linked: seq<set<int>>, key: int, prev: Ref, i: nat)
    requires Ok(sh, linked) && i < sh.maxHeight && Precedes(sh, linked[i], prev, i, key) && key !in linked[i]
    requires HasLink(sh, Node(key), i) && (i > 0 ==> key in linked[i - 1])
    ensures prev != Node(key) && Ok(Publish(sh, key, prev, i), linked[i := linked[i] + {key}])
  {
    hide Chained, Follows, HasLink, Publish, Precedes;
    PublishThisLevel(sh, linked[i], key, prev, i);
    PrecedesFacts(sh, linked[i], prev, i, key);
    var after, linked' := Publish(sh, key, prev, i), linked[i := linked[i] + {key}];
    forall j | 0 <= j < MAX_HEIGHT ensures Chained(after, linked'[j], j) {
      if j != i {
        PublishOtherLevel(sh, linked[j], key, prev, i, j);
      }
    }
    forall a, b | 0 <= a <= b < MAX_HEIGHT ensures linked'[b] <= linked'[a] {
      assert linked[b] <= linked[a];
      if b == i && a < b {
        assert linked[i - 1] <= linked[a];
      }
    }
    PublishHeight(sh, key, prev, i);
  }

  lemma PublishHeight(sh: Shape, key: int, prev: Ref, i: nat)
    requires HasLink(sh, prev, i) && HasLink(sh, Node(key), i) && prev != Node(key)
    ensures Publish(sh, key, prev, i).maxHeight == sh.maxHeight
  {
  }

  lemma PrecedesFacts(sh: Shape, s: set<int>, prev: Ref, i: nat, key: int)
    requires Precedes(sh, s, prev, i, key)
    ensures HasLink(sh, prev, i) && prev != Node(key)
  {
  }

  lemma StoreHeightKeeps(sh: Shape, linked: seq<set<int>>, height: nat)
    requires Ok(sh, linked) && sh.maxHeight <= height <= MAX_HEIGHT
    ensures Ok(StoreHeight(sh, height), linked)
  {
    forall i | 0 <= i < MAX_HEIGHT ensures Chained(StoreHeight(sh, height), linked[i], i) {
      assert Chained(sh, linked[i], i);
    }
  }

  lemma NewNodeKeeps(sh: Shape, linked: seq<set<int>>, key: int, height: nat)
    requires Ok(sh, linked) && key !in linked[0]
    ensures Ok(NewNode(sh, key, height), linked)
  {
    forall i | 0 <= i < MAX_HEIGHT ensures Chained(NewNode(sh, key, height), linked[i], i) {
      assert Chained(sh, linked[i], i) && linked[i] <= linked[0];
    }
  }

  // ---- The writer, one visible store at a time ------------------------------------------------------------------

  /** Between insertions, or with level links of the new node published. */
  datatype Writer = Resting | Linking(key: int, height: nat, prev: seq<Ref>, level: nat)

  /** What is stored, the keys linked at each level, and how far the writer is. */
  datatype List = List(shape: Shape, linked: seq<set<int>>, writer: Writer)

  /** The store of a larger maximum height. */
  ghost predicate Raise(l: List, l': List) {
    && l.writer.Resting? && l.shape.maxHeight < l'.shape.maxHeight <= MAX_HEIGHT
    && l' == l.(shape := StoreHeight(l.shape, l'.shape.maxHeight))
  }

  /** The predecessors are known and the node is made; it is still private. */
  ghost predicate Begin(l: List, l': List) {
    && l.writer.Resting? && l'.writer.Linking?
    && var (key, height, prev) := (l'.writer.key, l'.writer.height, l'.writer.prev);
    && |l.linked| == MAX_HEIGHT && 1 <= height <= l.shape.maxHeight && |prev| == MAX_HEIGHT && key !in l.linked[0]
    && l.shape.maxHeight <= MAX_HEIGHT
    && (forall i :: 0 <= i < height ==> Precedes(l.shape, l.linked[i], prev[i], i, key))
    && l' == l.(shape := NewNode(l.shape, key, height), writer := Linking(key, height, prev, 0))
  }

  /** The store that links the node at its next level. */
  ghost predicate PublishNext(l: List, l': List) {
    && l.writer.Linking? && var (key, i) := (l.writer.key, l.writer.level);
    && i < l.writer.height && i < |l.linked| && i < |l.writer.prev|
    && var prev := l.writer.prev[i];
    && prev != Node(key) && HasLink(l.shape, prev, i) && HasLink(l.shape, Node(key), i)
    && l' == l.(shape := Publish(l.shape, key, prev, i), linked := l.linked[i := l.linked[i] + {key}],
                writer := if i + 1 == l.writer.height then Resting else l.writer.(level := i + 1))
  }

  ghost predicate WriterStep(l: List, l': List) {
    Raise(l, l') || Begin(l, l') || PublishNext(l, l')
  }

  /** The levels below the writer's hold the new key, the others do not, and its predecessors there still stand. */
  ghost predicate WriterOk(l: List)
    requires |l.linked| == MAX_HEIGHT
  {
    l.writer.Linking? ==>
      var (key, height, prev, level) := (l.writer.key, l.writer.height, l.writer.prev, l.writer.level);
      && level < height <= l.shape.maxHeight <= MAX_HEIGHT && |prev| == MAX_HEIGHT
      && (forall i :: 0 <= i < MAX_HEIGHT ==> (key in l.linked[i] <==> i < level))
      && (forall i :: level <= i < height ==> Precedes(l.shape, l.linked[i], prev[i], i, key))
      && (forall i :: 0 <= i < height ==> HasLink(l.shape, Node(key), i))
  }

  ghost predicate ListOk(l: List) {
    Ok(l.shape, l.linked) && WriterOk(l)
  }

  /** The keys in the list. */
  function Keys(l: List): set<int> {
    if l.linked == [] then {} else l.linked[0]
  }

  lemma OkSizes(sh: Shape, linked: seq<set<int>>)
    requires Ok(sh, linked)
    ensures |linked| == MAX_HEIGHT
  {
  }

  lemma BeginKeeps(l: List, l': List)
    requires ListOk(l) && Begin(l, l')
    ensures ListOk(l') && l'.linked == l.linked
  {
    hide Follows, Chained, HasLink, Precedes, Ok;
    var key, height, prev := l'.writer.key, l'.writer.height, l'.writer.prev;
    KeyNowhere(l.shape, l.linked, key);
    NewNodeKeeps(l.shape, l.linked, key, height);
    NewNodePrecedes(l.shape, l.linked, key, height, prev);
  }

  lemma PublishNextKeeps(l: List, l': List)
    requires ListOk(l) && PublishNext(l, l')
    ensures ListOk(l') && Keys(l') == if l.writer.level == 0 then Keys(l) + {l.writer.key} else Keys(l)
  {
    hide Follows, Chained, HasLink, Precedes, Publish, Ok;
    var (key, height, prev, i) := (l.writer.key, l.writer.height, l.writer.prev, l.writer.level);
    OkSizes(l.shape, l.linked);
    PublishKeeps(l.shape, l.linked, key, prev[i], i);
    PublishHeight(l.shape, key, prev[i], i);
    forall j | 0 <= j < height ensures HasLink(l'.shape, Node(key), j) {
      PublishLinks(l.shape, key, prev[i], i, Node(key), j);
    }
    forall j | i + 1 <= j < height ensures Precedes(l'.shape, l.linked[j], prev[j], j, key) {
      PublishPrecedes(l.shape, l.linked[j], key, prev[i], i, prev[j], j);
    }
  }

  /** While a node is being linked there is a next store to make. */
  lemma PublishesNext(l: List)
    requires ListOk(l) && l.writer.Linking?
    ensures var (key, i) := (l.writer.key, l.writer.level);
            && i < MAX_HEIGHT && i < |l.linked| && i < |l.writer.prev| && l.writer.prev[i] != Node(key)
            && HasLink(l.shape, l.writer.prev[i], i) && HasLink(l.shape, Node(key), i)
  {
    hide Follows, Chained, HasLink, Ok;
    OkSizes(l.shape, l.linked);
    PrecedesFacts(l.shape, l.linked[l.writer.level], l.writer.prev[l.writer.level], l.writer.level, l.writer.key);
  }

  /** Every store of the writer keeps each level ordered and inside the one below. */
  lemma WriterStepKeeps(l: List, l': List)
    requires ListOk(l) && WriterStep(l, l')
    ensures ListOk(l') && Keys(l) <= Keys(l')
    ensures Keys(l') == Keys(l) || (l.writer.Linking? && Keys(l') == Keys(l) + {l.writer.key})
  {
    if Raise(l, l') {
      StoreHeightKeeps(l.shape, l.linked, l'.shape.maxHeight);
      hide Ok;
    } else if Begin(l, l') {
      BeginKeeps(l, l');
    } else {
      PublishNextKeeps(l, l');
    }
  }

  /** The states one insertion of key goes through. */
  ghost predicate Insertion(trace: seq<List>, key: int) {
    && trace != [] && ListOk(trace[0]) && trace[0].writer.Resting? && trace[|trace| - 1].writer.Resting?
    && (forall i :: 0 <= i < |trace| - 1 ==> WriterStep(trace[i], trace[i + 1]))
    && forall i :: 0 <= i < |trace| && trace[i].writer.Linking? ==> trace[i].writer.key == key
  }

  // ---- Reading -----------------------------------------------------------------------------------------------

  /** A search keeps going right while the next node is below the target; without a target, while there is one. */
  predicate Below(y: Ref, target: int) { y.Node? && y.key < target }

  /** x is the last node before target and y the first at or after it. */
  ghost predicate Straddles(s: set<int>, target: int, x: Ref, y: Ref) {
    On(s, x) && Comes(target, x) && !Below(y, target) && Follows(s, x, y)
  }

  /** How many keys of s come after x. */
  ghost function After(s: set<int>, x: Ref): set<int> {
    set z | z in s && Comes(z, x)
  }

  lemma AfterShrinks(s: set<int>, x: Ref, y: Ref)
    requires Follows(s, x, y) && y.Node?
    ensures |After(s, y)| < |After(s, x)|
  {
    assert After(s, y) <= After(s, x) - {y.key};
    Smaller(After(s, y), After(s, x) - {y.key});
  }

  lemma Smaller(a: set<int>, b: set<int>)
    requires a <= b
    ensures |a| <= |b|
  {
    assert b == a + (b - a);
  }

  class SkipList {
    var shape: Shape
    ghost var linked: seq<set<int>>

    ghost predicate Valid()
      reads this
    {
      Ok(shape, linked)
    }

    /** The keys in the list. */
    ghost function Contents(): set<int>
      reads this
      requires Valid()
    {
      linked[0]
    }

    constructor ()
      ensures Valid() && Contents() == {}
    {
      shape := Shape(1, map[Head := seq(MAX_HEIGHT, _ => Nil)]);
      linked := seq(MAX_HEIGHT, _ => {});
    }

    /** The first node at or after key, and at every level the last node before it. */
    method FindGreaterOrEqual(key: int) returns (y: Ref, prev: seq<Ref>)
      requires Valid()
      ensures |prev| == MAX_HEIGHT && Straddles(Contents(), key, prev[0], y)
      ensures forall i :: 0 <= i < shape.maxHeight ==> Precedes(shape, linked[i], prev[i], i, key) || key in linked[i]
    {
      var x, level := Head, shape.maxHeight - 1;
      prev := seq(MAX_HEIGHT, _ => Head);
      while true
        invariant 0 <= level < shape.maxHeight && |prev| == MAX_HEIGHT
        invariant On(linked[level], x) && Comes(key, x)
        invariant forall i :: level < i < shape.maxHeight
                              ==> Precedes(shape, linked[i], prev[i], i, key) || key in linked[i]
        decreases level, |After(linked[level], x)|
      {
        assert Chained(shape, linked[level], level);
        y := shape.next[x][level];
        if Below(y, key) {
          AfterShrinks(linked[level], x, y);
          x := y;
        } else {
          prev := prev[level := x];
          if level == 0 {
            return;
          }
          assert linked[level] <= linked[level - 1];
          level := level - 1;
        }
      }
    }

    /** The last node before key, or the head. */
    method FindLessThan(key: int) returns (x: Ref, ghost y: Ref)
      requires Valid()
      ensures Straddles(Contents(), key, x, y)
    {
      var level := shape.maxHeight - 1;
      x, y := Head, Nil;
      while true
        invariant 0 <= level < shape.maxHeight && On(linked[level], x) && Comes(key, x)
        decreases level, |After(linked[level], x)|
      {
        assert Chained(shape, linked[level], level);
        var next := shape.next[x][level];
        if next.Nil? || next.key >= key {
          if level == 0 {
            y := next;
            return;
          }
          assert linked[level] <= linked[level - 1];
          level := level - 1;
        } else {
          AfterShrinks(linked[level], x, next);
          x := next;
        }
      }
    }

    /** The last node, or the head when the list is empty. */
    method FindLast() returns (x: Ref)
      requires Valid()
      ensures On(Contents(), x) && Follows(Contents(), x, Nil)
    {
      var level := shape.maxHeight - 1;
      x := Head;
      while true
        invariant 0 <= level < shape.maxHeight && On(linked[level], x)
        decreases level, |After(linked[level], x)|
      {
        assert Chained(shape, linked[level], level);
        var next := shape.next[x][level];
        if next.Nil? {
          if level == 0 {
            return;
          }
          assert linked[level] <= linked[level - 1];
          level := level - 1;
        } else {
          AfterShrinks(linked[level], x, next);
          x := next;
        }
      }
    }

    method Contains(key: int) returns (found: bool)
      requires Valid()
      ensures found <==> key in Contents()
    {
      var y, _ := FindGreaterOrEqual(key);
      found := y.Node? && y.key == key;
    }

    /** Insert with the height the random generator gave; the trace is every state other threads can see. */
    method Insert(key: int, height: nat) returns (ghost trace: seq<List>)
      requires Valid() && key !in Contents() && 1 <= height <= MAX_HEIGHT
      modifies this
      ensures Valid() && Contents() == old(Contents()) + {key}
      ensures forall i :: 0 <= i < MAX_HEIGHT
                          ==> linked[i] == if i < height then old(linked)[i] + {key} else old(linked)[i]
      ensures Insertion(trace, key) && trace[0] == List(old(shape), old(linked), Resting)
      ensures trace[|trace| - 1] == List(shape, linked, Resting)
    {
      hide Chained, Follows, Precedes, HasLink, Publish, Ok, WriterOk, PublishNext;
      ghost var before := linked;
      ghost var l := List(shape, linked, Resting);
      trace := [l];
      RestingOk(l);
      var _, prev := FindGreaterOrEqual(key);
      KeyNowhere(shape, linked, key);
      if height > shape.maxHeight {
        var from := shape.maxHeight;
        for i := from to height
          invariant shape == old(shape) && linked == before && |prev| == MAX_HEIGHT
          invariant forall j :: 0 <= j < i ==> Precedes(shape, linked[j], prev[j], j, key)
        {
          HeadPrecedes(shape, linked, i, key);
          prev := prev[i := Head];
        }
        StoreHeightPrecedes(shape, linked, key, height, prev);
        shape := StoreHeight(shape, height);
        WriterStepKeeps(l, List(shape, linked, Resting));
        l := List(shape, linked, Resting);
        trace := trace + [l];
      }
      shape := NewNode(shape, key, height);
      ghost var begun := List(shape, linked, Linking(key, height, prev, 0));
      WriterStepKeeps(l, begun);
      l := begun;
      trace := trace + [l];
      for i := 0 to height
        invariant ListOk(l) && l.shape == shape && l.linked == linked && |linked| == MAX_HEIGHT
        invariant l.writer == if i < height then Linking(key, height, prev, i) else Resting
        invariant forall j :: 0 <= j < MAX_HEIGHT ==> linked[j] == if j < i then before[j] + {key} else before[j]
        invariant |trace| > 0 && trace[0] == List(old(shape), before, Resting) && trace[|trace| - 1] == l
        invariant forall j :: 0 <= j < |trace| - 1 ==> WriterStep(trace[j], trace[j + 1])
        invariant forall j :: 0 <= j < |trace| && trace[j].writer.Linking? ==> trace[j].writer.key == key
      {
        PublishesNext(l);
        shape, linked := Publish(shape, key, prev[i], i), linked[i := linked[i] + {key}];
        ghost var l' := List(shape, linked, if i + 1 == height then Resting else Linking(key, height, prev, i + 1));
        IsPublished(l, l');
        WriterStepKeeps(l, l');
        l := l';
        trace := trace + [l];
      }
      RestedOk(l);
    }
  }

  lemma RestingOk(l: List)
    requires Ok(l.shape, l.linked) && l.writer.Resting?
    ensures ListOk(l)
  {
    OkSizes(l.shape, l.linked);
    hide Ok;
  }

  lemma RestedOk(l: List)
    requires ListOk(l)
    ensures Ok(l.shape, l.linked)
  {
    hide Ok, WriterOk;
  }

  lemma IsPublished(l: List, l': List)
    requires l.writer.Linking? && var (key, i) := (l.writer.key, l.writer.level);
             && i < l.writer.height && i < |l.linked| && i < |l.writer.prev| && l.writer.prev[i] != Node(key)
             && HasLink(l.shape, l.writer.prev[i], i) && HasLink(l.shape, Node(key), i)
             && l'.shape == Publish(l.shape, key, l.writer.prev[i], i)
             && l'.linked == l.linked[i := l.linked[i] + {key}]
             && l'.writer == if i + 1 == l.writer.height then Resting else l.writer.(level := i + 1)
    ensures PublishNext(l, l')
  {
    hide HasLink, Publish;
  }

  lemma KeyNowhere(sh: Shape, linked: seq<set<int>>, key: int)
    requires Ok(sh, linked) && key !in linked[0]
    ensures |linked| == MAX_HEIGHT && 1 <= sh.maxHeight <= MAX_HEIGHT
    ensures forall i :: 0 <= i < MAX_HEIGHT ==> key !in linked[i]
  {
    forall i | 0 <= i < MAX_HEIGHT ensures key !in linked[i] {
      assert linked[i] <= linked[0];
    }
  }

  /** Above the current height every level is empty and the head precedes every key. */
  lemma HeadPrecedes(sh: Shape, linked: seq<set<int>>, i: nat, key: int)
    requires Ok(sh, linked) && sh.maxHeight <= i < MAX_HEIGHT
    ensures Precedes(sh, linked[i], Head, i, key)
  {
    assert Chained(sh, linked[i], i) && On(linked[i], Head);
  }

  lemma StoreHeightPrecedes(sh: Shape, linked: seq<set<int>>, key: int, height: nat, prev: seq<Ref>)
    requires |prev| == MAX_HEIGHT && |linked| == MAX_HEIGHT && height <= MAX_HEIGHT
    requires forall i :: 0 <= i < height ==> Precedes(sh, linked[i], prev[i], i, key)
    ensures forall i :: 0 <= i < height ==> Precedes(StoreHeight(sh, height), linked[i], prev[i], i, key)
  {
  }

  lemma NewNodePrecedes(sh: Shape, linked: seq<set<int>>, key: int, height: nat, prev: seq<Ref>)
    requires |prev| == MAX_HEIGHT && |linked| == MAX_HEIGHT && height <= MAX_HEIGHT
    requires forall i :: 0 <= i < height ==> Precedes(sh, linked[i], prev[i], i, key)
    ensures forall i :: 0 <= i < height ==> Precedes(NewNode(sh, key, height), linked[i], prev[i], i, key)
    ensures forall i :: 0 <= i < height ==> HasLink(NewNode(sh, key, height), Node(key), i)
    ensures NewNode(sh, key, height).maxHeight == sh.maxHeight
  {
    forall i | 0 <= i < height ensures Precedes(NewNode(sh, key, height), linked[i], prev[i], i, key) {
      PrecedesFacts(sh, linked[i], prev[i], i, key);
    }
  }

  lemma PublishPrecedes(sh: Shape, s: set<int>, key: int, prev: Ref, i: nat, prev': Ref, j: nat)
    requires HasLink(sh, prev, i) && HasLink(sh, Node(key), i) && prev != Node(key) && i != j
    requires Precedes(sh, s, prev', j, key)
    ensures Precedes(Publish(sh, key, prev, i), s, prev', j, key)
  {
    hide Publish;
    PublishLinks(sh, key, prev, i, prev', j);
  }
}
