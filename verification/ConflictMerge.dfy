/**
 Merging the property maps of several documents: a key, compared case-insensitively, whose values
 differ is dropped for good. The case folding is a parameter.
 */
module ConflictMerge {
  type Document = map<string, string>

  // The entries that all documents agree on, and the dropped keys with one of their spellings.
  datatype ConflictingMap = ConflictingMap(values: map<string, string>, dropped: map<string, string>)

  // The metadata of one document, or of several merged ones.
  datatype Metadata = Single(document: Document) | Several(merged: ConflictingMap)

  // ---------- What a folded key amounts to ----------

  datatype Status = Absent | Kept(value: string) | Dropped

  // The values of all spellings of a folded key in the documents.
  ghost function ValuesOf(docs: seq<Document>, fold: string -> string, f: string): set<string>
  {
    set d, key | d in docs && key in d && fold(key) == f :: d[key]
  }

  // A folded key is kept when all its values are the same, and dropped when two differ.
  predicate Summarizes(s: Status, values: set<string>)
  {
    match s
    case Absent => values == {}
    case Kept(v) => values == {v}
    case Dropped => exists v, w :: v in values && w in values && v != w
  }

  lemma SummaryUnique(s: Status, t: Status, values: set<string>)
    requires Summarizes(s, values) && Summarizes(t, values)
    ensures s == t
  {
  }

  function Join(s: Status, t: Status): Status
  {
    if s == Absent || s == t then t else if t == Absent then s else Dropped
  }

  lemma SummaryOfUnion(s: Status, t: Status, a: set<string>, b: set<string>)
    requires Summarizes(s, a) && Summarizes(t, b)
    ensures Summarizes(Join(s, t), a + b)
  {
    var u := a + b;
    if s.Kept? && t.Kept? && s != t {
      assert s.value in u && t.value in u;
    }
    if s == Dropped {
      var v, w :| v in a && w in a && v != w;
      assert v in u && w in u;
    }
    if t == Dropped {
      var v, w :| v in b && w in b && v != w;
      assert v in u && w in u;
    }
  }

  // ---------- The accumulator ----------

  predicate OneSpelling(m: ConflictingMap, fold: string -> string)
  {
    && (forall k, l :: k in m.values && l in m.values && fold(k) == fold(l) ==> k == l)
    && (forall k :: k in m.values ==> fold(k) !in m.dropped)
  }

  // What a conflicting map says about a folded key.
  ghost predicate Says(m: ConflictingMap, fold: string -> string, f: string, s: Status)
  {
    match s
    case Dropped => f in m.dropped
    case Kept(v) => f !in m.dropped && exists k :: k in m.values && fold(k) == f && m.values[k] == v
    case Absent => f !in m.dropped && forall k :: k in m.values ==> fold(k) != f
  }

  // The map is the canonical merge of the documents.
  ghost predicate Merges(m: ConflictingMap, docs: seq<Document>, fold: string -> string)
  {
    && OneSpelling(m, fold)
    && forall f, s {:trigger Says(m, fold, f, s)} :: Says(m, fold, f, s) <==> Summarizes(s, ValuesOf(docs, fold, f))
  }

  // The values and dropped keys being merged, with the spelling of each folded key.
  class Accumulator {
    var values: map<string, string>
    var dropped: map<string, string>
    var byFold: map<string, string>
    const fold: string -> string

    ghost predicate Valid()
      reads this
    {
      && (forall f :: f in byFold ==> byFold[f] in values && fold(byFold[f]) == f && f !in dropped)
      && (forall k :: k in values ==> fold(k) in byFold && byFold[fold(k)] == k)
    }

    function StatusOf(f: string): Status
      reads this
    {
      if f in dropped then Dropped
      else if f in byFold && byFold[f] in values then Kept(values[byFold[f]])
      else Absent
    }

    constructor (fold: string -> string)
      ensures Valid() && this.fold == fold
      ensures forall f :: StatusOf(f) == Absent
    {
      this.fold := fold;
      values, dropped, byFold := map[], map[], map[];
    }

    // Continues with the result of an earlier merge.
    constructor From(m: ConflictingMap, fold: string -> string)
      requires OneSpelling(m, fold)
      ensures Valid() && this.fold == fold
      ensures forall f :: Says(m, fold, f, StatusOf(f))
    {
      this.fold := fold;
      values, dropped := m.values, m.dropped;
      var index: map<string, string> := map[];
      var todo := m.values.Keys;
      while todo != {}
        invariant todo <= m.values.Keys
        invariant forall f :: f in index ==> index[f] in m.values && index[f] !in todo && fold(index[f]) == f
        invariant forall k :: k in m.values && k !in todo ==> fold(k) in index && index[fold(k)] == k
        decreases todo
      {
        var k :| k in todo;
        todo := todo - {k};
        index := index[fold(k) := k];
      }
      byFold := index;
    }

    // Removes a folded key and records it as dropped, unless it is dropped already.
    method DropKey(f: string, spelling: string)
      requires Valid()
      modifies this
      ensures Valid()
      ensures StatusOf(f) == Dropped && forall g :: g != f ==> StatusOf(g) == old(StatusOf(g))
    {
      if f in byFold {
        values := values - {byFold[f]};
        byFold := byFold - {f};
      }
      if f !in dropped {
        dropped := dropped[f := spelling];
      }
    }

    // Adds an entry: the folded key is kept while its values agree.
    method AddEntry(key: string, value: string)
      requires Valid()
      modifies this
      ensures Valid()
      ensures StatusOf(fold(key)) == Join(old(StatusOf(fold(key))), Kept(value))
      ensures forall g :: g != fold(key) ==> StatusOf(g) == old(StatusOf(g))
    {
      var f := fold(key);
      if f in dropped {
        return;
      }
      if f !in byFold {
        values := values[key := value];
        byFold := byFold[f := key];
        return;
      }
      if values[byFold[f]] != value {
        DropKey(f, byFold[f]);
      }
    }

    function Result(): ConflictingMap
      reads this
    {
      ConflictingMap(values, dropped)
    }

    // The result says what the accumulator says, and nothing else.
    lemma ResultSays(f: string)
      requires Valid()
      ensures OneSpelling(Result(), fold)
      ensures forall s :: Says(Result(), fold, f, s) <==> s == StatusOf(f)
    {
    }
  }

  // ---------- Merging ----------

  ghost function StatusIn(m: ConflictingMap, fold: string -> string, f: string): (s: Status)
    ensures Says(m, fold, f, s)
  {
    if f in m.dropped then Dropped
    else if k :| k in m.values && fold(k) == f then Kept(m.values[k])
    else Absent
  }

  lemma SaysOne(m: ConflictingMap, fold: string -> string, f: string, s: Status)
    requires OneSpelling(m, fold) && Says(m, fold, f, s)
    ensures s == StatusIn(m, fold, f)
  {
  }

  lemma MergesByStatus(m: ConflictingMap, docs: seq<Document>, fold: string -> string)
    requires OneSpelling(m, fold)
    requires forall f {:trigger StatusIn(m, fold, f)} :: Summarizes(StatusIn(m, fold, f), ValuesOf(docs, fold, f))
    ensures Merges(m, docs, fold)
  {
    forall f, s
      ensures Says(m, fold, f, s) <==> Summarizes(s, ValuesOf(docs, fold, f))
    {
      hide Says, Summarizes, ValuesOf;
      assert Summarizes(StatusIn(m, fold, f), ValuesOf(docs, fold, f));
      if Says(m, fold, f, s) {
        SaysOne(m, fold, f, s);
      }
      if Summarizes(s, ValuesOf(docs, fold, f)) {
        SummaryUnique(s, StatusIn(m, fold, f), ValuesOf(docs, fold, f));
      }
    }
  }

  // The values of the spellings of a folded key among some of the keys of a document.
  ghost function SomeValues(src: Document, keys: set<string>, fold: string -> string, f: string): set<string>
  {
    set key | key in keys && key in src && fold(key) == f :: src[key]
  }

  lemma AllValues(src: Document, fold: string -> string, f: string)
    ensures SomeValues(src, src.Keys, fold, f) == ValuesOf([src], fold, f)
  {
    forall v
      ensures v in SomeValues(src, src.Keys, fold, f) <==> v in ValuesOf([src], fold, f)
    {
      if v in SomeValues(src, src.Keys, fold, f) {
        var key :| key in src && fold(key) == f && src[key] == v;
        assert [src][0] in [src];
      }
    }
  }

  // Reduces a document to one spelling per folded key. The order of the keys is arbitrary.
  method FoldConflictingMap(src: Document, fold: string -> string) returns (m: ConflictingMap)
    ensures Merges(m, [src], fold)
  {
    var acc := new Accumulator(fold);
    var todo := src.Keys;
    ghost var done: set<string> := {};
    while todo != {}
      invariant acc.Valid() && acc.fold == fold && fresh(acc)
      invariant todo + done == src.Keys && todo !! done
      invariant forall f :: Summarizes(acc.StatusOf(f), SomeValues(src, done, fold, f))
      decreases todo
    {
      var key :| key in todo;
      ghost var f := fold(key);
      ghost var before := acc.StatusOf(f);
      ghost var values := SomeValues(src, done, fold, f);
      assert Summarizes(before, values);
      acc.AddEntry(key, src[key]);
      SummaryOfUnion(before, Kept(src[key]), values, {src[key]});
      forall g
        ensures SomeValues(src, done + {key}, fold, g) == if g == f then values + {src[key]} else SomeValues(src, done, fold, g)
      {
      }
      todo, done := todo - {key}, done + {key};
    }
    m := acc.Result();
    forall f
      ensures OneSpelling(m, fold) && Summarizes(StatusIn(m, fold, f), ValuesOf([src], fold, f))
    {
      acc.ResultSays(f);
      AllValues(src, fold, f);
      SaysOne(m, fold, f, acc.StatusOf(f));
      assert done == src.Keys;
    }
    MergesByStatus(m, [src], fold);
  }

  // What the metadata stands for.
  ghost predicate Stands(meta: Metadata, docs: seq<Document>, fold: string -> string)
  {
    match meta
    case Single(document) => docs == [document]
    case Several(merged) => Merges(merged, docs, fold)
  }

  // Merges one more document. The orders in which keys are visited are arbitrary.
  method UnionMapDropConflicts(existing: Metadata, src: Document, fold: string -> string, ghost docs: seq<Document>)
    returns (m: ConflictingMap)
    requires Stands(existing, docs, fold)
    ensures Merges(m, docs + [src], fold)
  {
    hide Summarizes, ValuesOf, Says;
    var start: ConflictingMap;
    if existing.Single? {
      start := FoldConflictingMap(existing.document, fold);
    } else {
      start := existing.merged;
    }
    var acc := new Accumulator.From(start, fold);
    forall f
      ensures acc.StatusOf(f) == StatusIn(start, fold, f)
    {
      SaysOne(start, fold, f, acc.StatusOf(f));
    }
    var folded := FoldConflictingMap(src, fold);
    MergeFolded(acc, start, folded, fold);
    m := acc.Result();
    forall f
      ensures OneSpelling(m, fold) && Summarizes(StatusIn(m, fold, f), ValuesOf(docs + [src], fold, f))
    {
      acc.ResultSays(f);
      SaysOne(m, fold, f, acc.StatusOf(f));
      assert Says(start, fold, f, StatusIn(start, fold, f)) && Says(folded, fold, f, StatusIn(folded, fold, f));
      SummaryOfUnion(StatusIn(start, fold, f), StatusIn(folded, fold, f), ValuesOf(docs, fold, f), ValuesOf([src], fold, f));
      ValuesOfUnion(docs, [src], fold, f);
    }
    MergesByStatus(m, docs + [src], fold);
  }

  // Merges a folded document into the accumulator: first its dropped keys, then its values.
  method MergeFolded(acc: Accumulator, ghost start: ConflictingMap, folded: ConflictingMap, fold: string -> string)
    requires acc.Valid() && acc.fold == fold && OneSpelling(folded, fold)
    requires forall f :: acc.StatusOf(f) == StatusIn(start, fold, f)
    modifies acc
    ensures acc.Valid()
    ensures forall f :: acc.StatusOf(f) == Join(StatusIn(start, fold, f), StatusIn(folded, fold, f))
  {
    hide StatusIn, Accumulator.StatusOf, Says;
    var todo := folded.dropped.Keys;
    while todo != {}
      invariant acc.Valid() && todo <= folded.dropped.Keys
      invariant forall f :: acc.StatusOf(f) ==
                              if f in folded.dropped && f !in todo then Dropped else StatusIn(start, fold, f)
      decreases todo
    {
      var f :| f in todo;
      todo := todo - {f};
      acc.DropKey(f, folded.dropped[f]);
    }
    forall f
      ensures acc.StatusOf(f) == if Pending(folded, folded.values.Keys, fold, f) then StatusIn(start, fold, f)
                                 else Join(StatusIn(start, fold, f), StatusIn(folded, fold, f))
    {
      WithoutValues(folded, fold, f);
    }
    MergeValues(acc, start, folded, fold);
  }

  method MergeValues(acc: Accumulator, ghost start: ConflictingMap, folded: ConflictingMap, fold: string -> string)
    requires acc.Valid() && acc.fold == fold && OneSpelling(folded, fold)
    requires forall f :: acc.StatusOf(f) == if Pending(folded, folded.values.Keys, fold, f) then StatusIn(start, fold, f)
                                            else Join(StatusIn(start, fold, f), StatusIn(folded, fold, f))
    modifies acc
    ensures acc.Valid()
    ensures forall f :: acc.StatusOf(f) == Join(StatusIn(start, fold, f), StatusIn(folded, fold, f))
  {
    hide StatusIn, Accumulator.StatusOf, Says, Join, Pending, Accumulator.Valid, OneSpelling;
    var todo := folded.values.Keys;
    while todo != {}
      invariant acc.Valid() && todo <= folded.values.Keys
      invariant forall f :: acc.StatusOf(f) ==
                              if Pending(folded, todo, fold, f) then StatusIn(start, fold, f)
                              else Join(StatusIn(start, fold, f), StatusIn(folded, fold, f))
      decreases todo
    {
      var key :| key in todo;
      PendingShrinks(folded, todo, fold, key);
      todo := todo - {key};
      acc.AddEntry(key, folded.values[key]);
    }
    assert forall f :: !Pending(folded, todo, fold, f) by { NothingPending(folded, fold); }
  }

  lemma WithoutValues(folded: ConflictingMap, fold: string -> string, f: string)
    requires OneSpelling(folded, fold)
    ensures if Pending(folded, folded.values.Keys, fold, f) then f !in folded.dropped
            else StatusIn(folded, fold, f) == if f in folded.dropped then Dropped else Absent
  {
  }

  lemma PendingShrinks(folded: ConflictingMap, todo: set<string>, fold: string -> string, key: string)
    requires OneSpelling(folded, fold) && todo <= folded.values.Keys && key in todo
    ensures Pending(folded, todo, fold, fold(key)) && !Pending(folded, todo - {key}, fold, fold(key))
    ensures StatusIn(folded, fold, fold(key)) == Kept(folded.values[key])
    ensures forall g :: g != fold(key) ==> (Pending(folded, todo - {key}, fold, g) <==> Pending(folded, todo, fold, g))
  {
    assert Says(folded, fold, fold(key), Kept(folded.values[key]));
    SaysOne(folded, fold, fold(key), Kept(folded.values[key]));
    forall g | g != fold(key)
      ensures Pending(folded, todo - {key}, fold, g) <==> Pending(folded, todo, fold, g)
    {
      if Pending(folded, todo, fold, g) {
        var k :| k in todo && k in folded.values && fold(k) == g;
        assert k in todo - {key};
      }
    }
  }

  lemma NothingPending(folded: ConflictingMap, fold: string -> string)
    ensures forall f :: !Pending(folded, {}, fold, f)
  {
  }

  // The values of the folded key are not merged yet.
  ghost predicate Pending(folded: ConflictingMap, todo: set<string>, fold: string -> string, f: string)
  {
    exists k :: k in todo && k in folded.values && fold(k) == f
  }

  lemma ValuesOfUnion(docs: seq<Document>, more: seq<Document>, fold: string -> string, f: string)
    ensures ValuesOf(docs + more, fold, f) == ValuesOf(docs, fold, f) + ValuesOf(more, fold, f)
  {
  }

  // Folds the merge over the documents of an aggregation.
  method MergeDocuments(docs: seq<Document>, fold: string -> string) returns (meta: Metadata)
    requires |docs| > 0
    ensures Stands(meta, docs, fold)
    ensures meta.Single? <==> |docs| == 1
  {
    hide Merges;
    meta := Single(docs[0]);
    for i := 1 to |docs|
      invariant Stands(meta, docs[..i], fold)
      invariant meta.Single? <==> i == 1
    {
      var m := UnionMapDropConflicts(meta, docs[i], fold, docs[..i]);
      assert docs[..i] + [docs[i]] == docs[..i + 1];
      meta := Several(m);
    }
    assert docs[..|docs|] == docs;
  }

  // ---------- The merge is canonical ----------

  /**
   A folded key is kept with a value exactly when some document carries it and all its spellings
   in all documents have that value, and dropped exactly when two of them differ.
   */
  lemma MergeIsCanonical(m: ConflictingMap, docs: seq<Document>, fold: string -> string, f: string, v: string)
    requires Merges(m, docs, fold)
    ensures (exists k :: k in m.values && fold(k) == f && m.values[k] == v) <==>
              && (exists d, key :: d in docs && key in d && fold(key) == f)
              && (forall d, key :: d in docs && key in d && fold(key) == f ==> d[key] == v)
    ensures f in m.dropped <==>
              exists d, key, e, other ::
                d in docs && key in d && fold(key) == f && e in docs && other in e && fold(other) == f && d[key] != e[other]
  {
    var values := ValuesOf(docs, fold, f);
    assert Says(m, fold, f, Kept(v)) <==> Summarizes(Kept(v), values);
    assert Says(m, fold, f, Dropped) <==> Summarizes(Dropped, values);
    assert forall d, key :: d in docs && key in d && fold(key) == f ==> d[key] in values;
  }

  /**
   The folded result depends on neither the order nor the repetition of the documents, nor on the
   order in which keys were visited.
   */
  lemma MergeIgnoresOrder(m: ConflictingMap, docs: seq<Document>, m': ConflictingMap, docs': seq<Document>, fold: string -> string, f: string)
    requires Merges(m, docs, fold) && Merges(m', docs', fold)
    requires forall d :: d in docs <==> d in docs'
    ensures StatusIn(m, fold, f) == StatusIn(m', fold, f)
  {
    assert ValuesOf(docs, fold, f) == ValuesOf(docs', fold, f);
    var s := StatusIn(m, fold, f);
    assert Says(m, fold, f, s) && Says(m', fold, f, StatusIn(m', fold, f));
    SummaryUnique(s, StatusIn(m', fold, f), ValuesOf(docs, fold, f));
  }

  // Resolving replaces the merged map by its values and the spellings of the dropped keys. The
  // map of a single document is left as it is, with nothing dropped.
  function Resolve(meta: Metadata): (Document, set<string>)
  {
    match meta
    case Single(document) => (document, {})
    case Several(merged) => (merged.values, merged.dropped.Values)
  }

  /**
   Resolving drops exactly the conflicting folded keys if and only if there are several documents,
   or the single one has no conflict between spellings: a conflict within the only document is not
   detected.
   */
  lemma ResolvedIffNoLoneConflict(meta: Metadata, docs: seq<Document>, fold: string -> string)
    requires Stands(meta, docs, fold)
    ensures (forall f :: Summarizes(Dropped, ValuesOf(docs, fold, f)) ==> forall k :: k in Resolve(meta).0 ==> fold(k) != f)
        <==> meta.Several? || forall f :: !Summarizes(Dropped, ValuesOf(docs, fold, f))
  {
    if meta.Several? {
      forall f | Summarizes(Dropped, ValuesOf(docs, fold, f))
        ensures forall k :: k in Resolve(meta).0 ==> fold(k) != f
      {
        assert Says(meta.merged, fold, f, Dropped);
      }
    } else if f :| Summarizes(Dropped, ValuesOf(docs, fold, f)) {
      var v, w :| v in ValuesOf(docs, fold, f) && w in ValuesOf(docs, fold, f) && v != w;
      var d, key :| d in docs && key in d && fold(key) == f && d[key] == v;
      assert key in Resolve(meta).0;
    }
  }

  // A single document that spells one key twice, with different values, keeps both.
  lemma LoneConflictKept(fold: string -> string)
    requires fold("Env") == fold("env")
    ensures var document := map["Env" := "dev", "env" := "prod"];
            && Stands(Single(document), [document], fold)
            && Summarizes(Dropped, ValuesOf([document], fold, fold("env")))
            && Resolve(Single(document)) == (document, {})
  {
    var document := map["Env" := "dev", "env" := "prod"];
    var docs := [document];
    assert "Env" != "env" && "dev" != "prod";
    assert document in docs && "Env" in document && "env" in document;
    assert document["Env"] in ValuesOf(docs, fold, fold("env")) && document["env"] in ValuesOf(docs, fold, fold("env"));
  }
}
