/**
 * The memory collection of App.tsx as a value: the list transforms the save and
 * delete handlers apply, the lookup behind opening the edit dialog, and the
 * choice made when the collection is loaded at start-up.
 */
module Collection {
  import opened Types

  function Ids(s: seq<Memory>): seq<string> {
    seq(|s|, i requires 0 <= i < |s| => s[i].id)
  }

  predicate UniqueIds(s: seq<Memory>) {
    forall i, j :: 0 <= i < j < |s| ==> s[i].id != s[j].id
  }

  lemma SameIdSameIndex(s: seq<Memory>, i: int, j: int)
    requires UniqueIds(s) && 0 <= i < |s| && 0 <= j < |s| && s[i].id == s[j].id
    ensures i == j
  {
  }

  lemma IdsOfTail(s: seq<Memory>)
    requires s != []
    ensures Ids(s) == [s[0].id] + Ids(s[1..])
  {
  }

  // ---------------------------------------------------------------------------
  // Lookup (`memories.find(m => m.id === id)`)
  // ---------------------------------------------------------------------------

  /** The first record whose id is `id`, if there is one. */
  function Find(s: seq<Memory>, id: string): (r: Option<Memory>)
    ensures r.None? <==> id !in Ids(s)
    ensures r.Some? ==> exists k :: 0 <= k < |s| && s[k] == r.value && FirstWithId(s, id, k)
  {
    if s == [] then None
    else if s[0].id == id then
      assert Ids(s)[0] == id && FirstWithId(s, id, 0);
      Some(s[0])
    else
      var r := Find(s[1..], id);
      assert Ids(s) == [s[0].id] + Ids(s[1..]);
      if r.Some? then
        var k :| 0 <= k < |s[1..]| && s[1..][k] == r.value && FirstWithId(s[1..], id, k);
        assert FirstWithId(s, id, k + 1);
        r
      else r
  }

  /** Index `k` holds the first record with id `id`. */
  predicate FirstWithId(s: seq<Memory>, id: string, k: int) {
    0 <= k < |s| && s[k].id == id && forall j :: 0 <= j < k ==> s[j].id != id
  }

  // ---------------------------------------------------------------------------
  // Create: `[newMemory, ...prev]`
  // ---------------------------------------------------------------------------

  function Create(s: seq<Memory>, draft: MemoryDraft, freshId: string): (r: seq<Memory>)
    ensures |r| == |s| + 1 && r[0].id == freshId
  {
    [WithId(draft, freshId)] + s
  }

  /** Create adds exactly one record, at the front, carrying the draft and the new id;
      the old list follows untouched, and a fresh id keeps the ids unique. */
  lemma CreateAddsOneRecord(s: seq<Memory>, draft: MemoryDraft, freshId: string)
    ensures var r := Create(s, draft, freshId);
      && |r| == |s| + 1
      && r[0].id == freshId && DraftOf(r[0]) == draft
      && r[1..] == s
      && Ids(r) == [freshId] + Ids(s)
      && multiset(r) == multiset(s) + multiset{WithId(draft, freshId)}
    ensures UniqueIds(s) && freshId !in Ids(s) ==> UniqueIds(Create(s, draft, freshId))
  {
    var r := Create(s, draft, freshId);
    assert r == [r[0]] + s;
    if UniqueIds(s) && freshId !in Ids(s) {
      forall i, j | 0 <= i < j < |r| ensures r[i].id != r[j].id {
        if i == 0 {
          assert r[j].id == Ids(s)[j - 1];
        }
      }
    }
  }

  // ---------------------------------------------------------------------------
  // Update: `prev.map(m => m.id === id ? { ...draft, id } : m)`
  // ---------------------------------------------------------------------------

  function Update(s: seq<Memory>, id: string, draft: MemoryDraft): (r: seq<Memory>)
    ensures |r| == |s|
    ensures forall i :: 0 <= i < |s| ==>
      r[i] == (if s[i].id == id then WithId(draft, id) else s[i])
  {
    if s == [] then []
    else [if s[0].id == id then WithId(draft, id) else s[0]] + Update(s[1..], id, draft)
  }

  /** Update keeps every id in place, so it keeps ids unique; with an id nobody has,
      the list comes back unchanged. */
  lemma UpdateKeepsIds(s: seq<Memory>, id: string, draft: MemoryDraft)
    ensures Ids(Update(s, id, draft)) == Ids(s)
    ensures UniqueIds(s) ==> UniqueIds(Update(s, id, draft))
    ensures id !in Ids(s) ==> Update(s, id, draft) == s
  {
    var r := Update(s, id, draft);
    if id !in Ids(s) {
      forall i | 0 <= i < |s| ensures r[i] == s[i] {
        assert Ids(s)[i] == s[i].id;
      }
    }
  }

  /** Saving an edit whose draft is the record's own fields changes nothing. */
  lemma UnchangedEditIsNoop(s: seq<Memory>, m: Memory)
    requires UniqueIds(s) && m in s
    ensures Update(s, m.id, DraftOf(m)) == s
  {
    var k :| 0 <= k < |s| && s[k] == m;
    var r := Update(s, m.id, DraftOf(m));
    forall i | 0 <= i < |s| ensures r[i] == s[i] {
      if s[i].id == m.id {
        SameIdSameIndex(s, i, k);
      }
    }
  }

  // ---------------------------------------------------------------------------
  // Delete: `prev.filter(m => m.id !== id)`
  // ---------------------------------------------------------------------------

  function Remove(s: seq<Memory>, id: string): (r: seq<Memory>)
    ensures |r| <= |s|
    ensures forall i :: 0 <= i < |r| ==> r[i].id != id
  {
    if s == [] then []
    else if s[0].id == id then Remove(s[1..], id)
    else [s[0]] + Remove(s[1..], id)
  }

  /** Remove drops every copy of every record with id `id` and keeps every other record
      with its multiplicity. */
  lemma {:induction false} RemoveContents(s: seq<Memory>, id: string)
    ensures forall m :: multiset(Remove(s, id))[m] == if m.id == id then 0 else multiset(s)[m]
  {
    if s != [] {
      RemoveContents(s[1..], id);
      assert s == [s[0]] + s[1..];
    }
  }

  /** Remove keeps the surviving records in their order: it is applied piece by piece. */
  lemma {:induction false} RemoveAppend(a: seq<Memory>, b: seq<Memory>, id: string)
    ensures Remove(a + b, id) == Remove(a, id) + Remove(b, id)
  {
    if a == [] {
      assert a + b == b;
    } else {
      assert (a + b)[1..] == a[1..] + b;
      RemoveAppend(a[1..], b, id);
    }
  }

  /** A record in the middle of a list is kept or dropped by its own id alone, in its
      place between the survivors before it and those after it. */
  lemma RemoveAround(a: seq<Memory>, x: Memory, b: seq<Memory>, id: string)
    ensures Remove(a + [x] + b, id) == Remove(a, id) + (if x.id == id then [] else [x]) + Remove(b, id)
  {
    RemoveAppend(a + [x], b, id);
    RemoveAppend(a, [x], id);
    assert Remove([x], id) == if x.id == id then [] else [x] by {
      assert [x][1..] == [];
    }
  }

  /** Removing an id nobody has is a no-op. */
  lemma {:induction false} RemoveMissingIsNoop(s: seq<Memory>, id: string)
    requires id !in Ids(s)
    ensures Remove(s, id) == s
  {
    if s != [] {
      IdsOfTail(s);
      RemoveMissingIsNoop(s[1..], id);
    }
  }

  /** With unique ids, deleting the id at position `k` removes exactly that position. */
  lemma {:induction false} RemoveAt(s: seq<Memory>, k: int)
    requires UniqueIds(s) && 0 <= k < |s|
    ensures Remove(s, s[k].id) == s[..k] + s[k + 1..]
  {
    if k == 0 {
      RemoveFront(s);
    } else {
      var id := s[k].id;
      assert s[0].id != id;
      RemoveAt(s[1..], k - 1);
      assert s[1..][k - 1] == s[k];
      assert s[..k] == [s[0]] + s[1..][..k - 1];
      assert s[k + 1..] == s[1..][k..];
    }
  }

  lemma RemoveFront(s: seq<Memory>)
    requires UniqueIds(s) && s != []
    ensures Remove(s, s[0].id) == s[1..]
  {
    forall x | x in Ids(s[1..]) ensures x != s[0].id {
      var j :| 0 <= j < |s| - 1 && Ids(s[1..])[j] == x;
      assert x == s[j + 1].id && s[0].id != s[j + 1].id;
    }
    RemoveMissingIsNoop(s[1..], s[0].id);
  }

  /** Removing records keeps the remaining ids unique. */
  lemma {:induction false} RemoveKeepsUniqueIds(s: seq<Memory>, id: string)
    requires UniqueIds(s)
    ensures UniqueIds(Remove(s, id))
  {
    if s != [] {
      RemoveKeepsUniqueIds(s[1..], id);
      if s[0].id != id {
        var rest := Remove(s[1..], id);
        RemoveContents(s[1..], id);
        forall j | 0 <= j < |rest| ensures rest[j].id != s[0].id {
          assert rest[j] in multiset(rest);
          assert rest[j] in multiset(s[1..]);
          assert rest[j] in s[1..];
          var k :| 1 <= k < |s| && s[k] == rest[j];
        }
      }
    }
  }

  // ---------------------------------------------------------------------------
  // Loading at start-up
  // ---------------------------------------------------------------------------

  /** What the storage key yields: nothing (no entry, or an empty string), a list that
      parses, or text that fails to parse. */
  datatype StoredValue = Missing | Parsed(list: seq<Memory>) | Unparsable

  /** The collection to start with, and whether the mount effect itself writes the seed
      list to storage. */
  datatype Loaded = Loaded(memories: seq<Memory>, writeSeeds: bool)

  const FirstSeedDescription: string :=
    "The world seemed to stop when our eyes first met at the coffee shop. The aroma of roasted beans, the soft jazz playing, and your shy smile—it was the beginning of my favorite story."
  const SecondSeedDescription: string :=
    "A quiet dinner, just the two of us. We laughed until our sides hurt and talked about everything and nothing. I knew then that I never wanted to spend this day with anyone else."

  /** The two records installed on first run, oldest first. */
  function Seeds(): (r: seq<Memory>)
    ensures |r| == 2 && NotAfter(r[0].date, r[1].date)
  {
    [ Memory("1", Date(2023, 1, 1), "The Day We Met", FirstSeedDescription,
        Some("https://picsum.photos/800/600?random=1"), None),
      Memory("2", Date(2023, 2, 14), "First Valentine", SecondSeedDescription,
        Some("https://picsum.photos/800/600?random=2"), None) ]
  }

  /** The seed records carry ids "1" and "2". */
  lemma SeedsWellFormed()
    ensures Ids(Seeds()) == ["1", "2"] && UniqueIds(Seeds())
  {
  }

  /** A parsed list is taken as is; otherwise the seeds. The mount effect writes the seeds
      itself only when storage was empty; after a parse failure they reach storage through
      the persist-after-change effect, which is not part of this model. */
  function Load(stored: StoredValue): (r: Loaded)
    ensures r.writeSeeds <==> stored.Missing?
    ensures stored.Parsed? ==> r.memories == stored.list
    ensures !stored.Parsed? ==> r.memories == Seeds()
  {
    match stored
    case Missing => Loaded(Seeds(), true)
    case Parsed(list) => Loaded(list, false)
    case Unparsable => Loaded(Seeds(), false)
  }
}
