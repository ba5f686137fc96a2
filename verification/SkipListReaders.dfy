/** Readers that take no lock, interleaved store by store with the writer: whatever a search returns is right for the
    keys in the list at the moment of its last read. */
module SkipListReaders {
  import opened SkipLists

  /** FindGreaterOrEqual and FindLessThan look for a key, FindLast for the end. */
  datatype Search = SeekTo(target: int) | ToLast

  predicate GoesOn(what: Search, y: Ref) {
    y.Node? && (what.SeekTo? ==> y.key < what.target)
  }

  /** A search stands at node x on a level; when it ends it knows a node and its successor. */
  datatype Reader = Idle | Searching(what: Search, x: Ref, level: nat) | Found(what: Search, x: Ref, y: Ref)

  /** The list with its one writer, and any number of readers. */
  datatype World = World(list: List, readers: seq<Reader>)

  /** What the search promises about a set of keys. */
  ghost predicate Answers(s: set<int>, what: Search, x: Ref, y: Ref) {
    On(s, x) && Follows(s, x, y) && !GoesOn(what, y) && (what.SeekTo? ==> Comes(what.target, x))
  }

  // ---- Steps -------------------------------------------------------------------------------------------------

  /** A search starts at the head, on the top level the reader sees. */
  ghost predicate StartSearch(l: List, r: Reader, r': Reader) {
    && !r.Searching? && r'.Searching? && l.shape.maxHeight > 0
    && r' == Searching(r'.what, Head, l.shape.maxHeight - 1)
  }

  /** One turn of the search loop: a single read of a link. */
  ghost predicate ReadLink(l: List, r: Reader, r': Reader) {
    && r.Searching? && HasLink(l.shape, r.x, r.level)
    && var y := l.shape.next[r.x][r.level];
    && r' == if GoesOn(r.what, y) then Searching(r.what, y, r.level)
             else if r.level == 0 then Found(r.what, r.x, y)
             else Searching(r.what, r.x, r.level - 1)
  }

  ghost predicate ReaderStep(w: World, w': World, k: nat) {
    && k < |w.readers| && |w'.readers| == |w.readers|
    && (StartSearch(w.list, w.readers[k], w'.readers[k]) || ReadLink(w.list, w.readers[k], w'.readers[k]))
    && w' == w.(readers := w.readers[k := w'.readers[k]])
  }

  ghost predicate SomeReaderSteps(w: World, w': World) {
    exists k: nat :: ReaderStep(w, w', k)
  }

  ghost predicate Next(w: World, w': World) {
    (WriterStep(w.list, w'.list) && w'.readers == w.readers) || SomeReaderSteps(w, w')
  }

  /** The search of reader k ends in this step. */
  predicate Ends(w: World, w': World, k: nat) {
    && k < |w.readers| && k < |w'.readers| && w.readers[k].Searching? && w'.readers[k].Found?
  }

  // ---- Invariant ---------------------------------------------------------------------------------------------

  /** A search is on a node of its level's list, below its target. */
  ghost predicate ReaderOk(l: List, r: Reader) {
    r.Searching? ==>
      && r.level < MAX_HEIGHT && r.level < |l.linked| && On(l.linked[r.level], r.x)
      && (r.what.SeekTo? ==> Comes(r.what.target, r.x))
  }

  ghost predicate Inv(w: World) {
    ListOk(w.list) && forall r :: r in w.readers ==> ReaderOk(w.list, r)
  }

  lemma LinkFacts(sh: Shape, linked: seq<set<int>>, x: Ref, level: nat)
    requires Ok(sh, linked) && level < MAX_HEIGHT && On(linked[level], x)
    ensures HasLink(sh, x, level) && Follows(linked[level], x, sh.next[x][level])
    ensures level > 0 ==> On(linked[level - 1], x)
  {
    assert Chained(sh, linked[level], level);
    if level > 0 {
      assert linked[level] <= linked[level - 1];
    }
  }

  /** The last read of a search gets the answer for the keys that are in the list just then. */
  lemma ReadLinkKeeps(l: List, r: Reader, r': Reader)
    requires ListOk(l) && ReaderOk(l, r) && ReadLink(l, r, r')
    ensures ReaderOk(l, r') && (r'.Found? ==> Answers(Keys(l), r'.what, r'.x, r'.y))
  {
    LinkFacts(l.shape, l.linked, r.x, r.level);
    hide Ok, WriterOk;
  }

  lemma StartSearchKeeps(l: List, r: Reader, r': Reader)
    requires ListOk(l) && StartSearch(l, r, r')
    ensures ReaderOk(l, r')
  {
    hide WriterOk, Chained;
  }

  /** A search stays on linked nodes when nodes are linked elsewhere. */
  lemma ReaderStands(l: List, l': List, r: Reader)
    requires ReaderOk(l, r) && |l'.linked| == |l.linked|
    requires forall i :: 0 <= i < |l.linked| ==> l.linked[i] <= l'.linked[i]
    ensures ReaderOk(l', r)
  {
  }

  lemma WriterAdds(l: List, l': List)
    requires ListOk(l) && WriterStep(l, l')
    ensures |l'.linked| == |l.linked| && forall i :: 0 <= i < |l.linked| ==> l.linked[i] <= l'.linked[i]
  {
    hide ListOk, HasLink, Precedes, Publish;
  }

  /** Every step of the writer or of a reader keeps the invariant and only adds keys. */
  lemma NextKeeps(w: World, w': World)
    requires Inv(w) && Next(w, w')
    ensures Inv(w') && Keys(w.list) <= Keys(w'.list)
  {
    hide ListOk, ReaderOk, WriterStep, StartSearch, ReadLink;
    if WriterStep(w.list, w'.list) && w'.readers == w.readers {
      WriterStepKeeps(w.list, w'.list);
      WriterAdds(w.list, w'.list);
      forall r | r in w'.readers ensures ReaderOk(w'.list, r) {
        ReaderStands(w.list, w'.list, r);
      }
    } else {
      var k: nat :| ReaderStep(w, w', k);
      if StartSearch(w.list, w.readers[k], w'.readers[k]) {
        StartSearchKeeps(w.list, w.readers[k], w'.readers[k]);
      } else {
        ReadLinkKeeps(w.list, w.readers[k], w'.readers[k]);
      }
    }
  }

  /** A search that ends is right for the keys in the list at that step. */
  lemma EndsRight(w: World, w': World, k: nat)
    requires Inv(w) && Next(w, w') && Ends(w, w', k)
    ensures Answers(Keys(w'.list), w'.readers[k].what, w'.readers[k].x, w'.readers[k].y)
  {
    hide ListOk, ReaderOk, WriterStep, ReadLink, Answers;
    var k': nat :| ReaderStep(w, w', k');
    ReadLinkKeeps(w.list, w.readers[k], w'.readers[k]);
  }

  ghost predicate Run(ws: seq<World>) {
    ws != [] && Inv(ws[0]) && forall i :: 0 <= i < |ws| - 1 ==> Next(ws[i], ws[i + 1])
  }

  lemma {:induction false} RunKeeps(ws: seq<World>, i: nat, j: nat)
    requires Run(ws) && i <= j < |ws|
    ensures Inv(ws[i]) && Inv(ws[j]) && Keys(ws[i].list) <= Keys(ws[j].list)
    decreases j
  {
    hide Inv, Next;
    if i < j {
      RunKeeps(ws, i, j - 1);
      NextKeeps(ws[j - 1], ws[j]);
    } else if i > 0 {
      RunKeeps(ws, i - 1, j - 1);
      NextKeeps(ws[j - 1], ws[j]);
    }
  }

  /** Over every interleaving of the writer with any number of readers, a search under way at i that ends at j returns
      the right answer for the keys in the list at j; those include all the keys that were there at i. */
  lemma SearchIsRight(ws: seq<World>, k: nat, i: nat, j: nat)
    requires Run(ws) && i < j < |ws| && Ends(ws[j - 1], ws[j], k)
    ensures Answers(Keys(ws[j].list), ws[j].readers[k].what, ws[j].readers[k].x, ws[j].readers[k].y)
    ensures Keys(ws[i].list) <= Keys(ws[j].list)
  {
    hide Inv, Answers, Ends;
    RunKeeps(ws, i, j);
    RunKeeps(ws, j - 1, j);
    assert Next(ws[j - 1], ws[j]);
    hide Next;
    EndsRight(ws[j - 1], ws[j], k);
  }

  /** An insertion changes the key set in one step, the first store it publishes. */
  lemma {:induction false} KeysDuring(ws: seq<World>, i: nat, j: nat, key: int)
    requires Run(ws) && i <= j < |ws|
    requires forall n :: i <= n < j && ws[n].list.writer.Linking? ==> ws[n].list.writer.key == key
    ensures Keys(ws[j].list) == Keys(ws[i].list) || Keys(ws[j].list) == Keys(ws[i].list) + {key}
    decreases j
  {
    hide Inv, WriterStep, ReaderStep;
    if i < j {
      KeysDuring(ws, i, j - 1, key);
      RunKeeps(ws, j - 1, j);
      assert Next(ws[j - 1], ws[j]);
      StepKeys(ws[j - 1], ws[j]);
    }
  }

  lemma StepKeys(w: World, w': World)
    requires Inv(w) && Next(w, w')
    ensures Keys(w'.list) == Keys(w.list)
            || (w.list.writer.Linking? && Keys(w'.list) == Keys(w.list) + {w.list.writer.key})
  {
    hide ListOk, ReaderOk, WriterStep, StartSearch, ReadLink, Keys;
    if WriterStep(w.list, w'.list) && w'.readers == w.readers {
      WriterStepKeeps(w.list, w'.list);
    }
  }

  /** So the answer of a search that overlaps one insertion is right for the keys before it or for those after it. */
  lemma OldOrNew(ws: seq<World>, k: nat, i: nat, j: nat, key: int)
    requires Run(ws) && i < j < |ws| && Ends(ws[j - 1], ws[j], k)
    requires forall n :: i <= n < j && ws[n].list.writer.Linking? ==> ws[n].list.writer.key == key
    ensures var (s, r) := (Keys(ws[i].list), ws[j].readers[k]);
            Answers(s, r.what, r.x, r.y) || Answers(s + {key}, r.what, r.x, r.y)
  {
    hide Run, Answers, Keys;
    SearchIsRight(ws, k, i, j);
    KeysDuring(ws, i, j, key);
  }

  // ---- Searches during Insert --------------------------------------------------------------------------------

  /** The worlds readers and one insertion go through: at[n] is how far the insertion has come in world n. */
  ghost predicate During(ws: seq<World>, trace: seq<List>, at: seq<nat>) {
    && ws != [] && |at| == |ws| && at[0] == 0
    && (forall n :: 0 <= n < |ws| ==> at[n] < |trace| && ws[n].list == trace[at[n]])
    && forall n :: 0 <= n < |ws| - 1 ==>
                     || (at[n + 1] == at[n] + 1 && ws[n + 1].readers == ws[n].readers)
                     || (at[n + 1] == at[n] && SomeReaderSteps(ws[n], ws[n + 1]))
  }

  lemma DuringIsRun(ws: seq<World>, trace: seq<List>, at: seq<nat>, key: int)
    requires Insertion(trace, key) && During(ws, trace, at) && Inv(ws[0])
    ensures Run(ws)
    ensures forall n :: 0 <= n < |ws| && ws[n].list.writer.Linking? ==> ws[n].list.writer.key == key
  {
    hide ListOk, ReaderOk, ReaderStep, WriterStep;
    forall n | 0 <= n < |ws| - 1 ensures Next(ws[n], ws[n + 1]) {
      if at[n + 1] == at[n] + 1 && ws[n + 1].readers == ws[n].readers {
        assert WriterStep(trace[at[n]], trace[at[n] + 1]);
      }
    }
  }

  /** A search that ends anywhere during Insert, whenever it started, gives the answer for the keys before the insertion
      or the answer for those keys and the new one. */
  lemma SearchDuringInsert(ws: seq<World>, trace: seq<List>, at: seq<nat>, key: int, k: nat, j: nat)
    requires Insertion(trace, key) && During(ws, trace, at) && Inv(ws[0])
    requires 0 < j < |ws| && Ends(ws[j - 1], ws[j], k)
    ensures var (s, r) := (Keys(trace[0]), ws[j].readers[k]);
            Answers(s, r.what, r.x, r.y) || Answers(s + {key}, r.what, r.x, r.y)
  {
    hide Inv, Answers, Insertion, Run, Ends, Keys;
    DuringIsRun(ws, trace, at, key);
    OldOrNew(ws, k, 0, j, key);
  }

  /** While the list stands still each read brings the search closer to its end. */
  lemma ReadMakesProgress(l: List, r: Reader, r': Reader)
    requires ListOk(l) && ReaderOk(l, r) && ReadLink(l, r, r') && r'.Searching?
    ensures r.level < |l.linked| && r'.level < |l.linked|
    ensures || r'.level < r.level
            || (r'.level == r.level && |After(l.linked[r.level], r'.x)| < |After(l.linked[r.level], r.x)|)
  {
    LinkFacts(l.shape, l.linked, r.x, r.level);
    var y := l.shape.next[r.x][r.level];
    if GoesOn(r.what, y) {
      AfterShrinks(l.linked[r.level], r.x, y);
    }
  }
}
