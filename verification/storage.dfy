/** The saved vocabulary lists (services/storageService.ts). `localStorage`
    is a single slot holding the serialised lists; here it is the value
    `Blob`, and every operation returns the new slot content together with
    the list of sets it hands back to its caller. */
module Storage {
  import opened Wrappers
  import opened Types
  import Text

  /** The content of the storage slot: nothing stored (or an empty string),
      something that does not parse, or a parsed list of sets. */
  datatype Blob = Absent | Unreadable | Stored(sets: seq<VocabSet>)

  /** The slot after an operation, and the sets the operation returns. */
  datatype StoreResult = StoreResult(blob: Blob, sets: seq<VocabSet>)

  /** `getSavedSets`: the stored sets, or none when nothing readable is
      stored. */
  function GetSavedSets(b: Blob): (r: seq<VocabSet>)
    ensures b.Stored? ==> r == b.sets
    ensures !b.Stored? ==> r == []
  {
    match b
    case Stored(sets) => sets
    case _ => []
  }

  // Creating a set.

  /** `createVocabSet`: a new empty set named by the trimmed name is put in
      front of the stored sets, and the result is saved. `idStamp` and
      `createdAt` are the two clock readings the program takes. */
  function CreateVocabSet(b: Blob, name: string, idStamp: nat, createdAt: int): (r: StoreResult)
    ensures |r.sets| == |GetSavedSets(b)| + 1
    ensures r.sets[0].id == Text.NatToString(idStamp)
    ensures r.sets[0].name == Text.Trim(name) && r.sets[0].createdAt == createdAt && r.sets[0].items == []
    ensures r.sets[1..] == GetSavedSets(b)
    ensures GetSavedSets(r.blob) == r.sets
  {
    var newSet := VocabSet(Text.NatToString(idStamp), Text.Trim(name), createdAt, []);
    var updated := [newSet] + GetSavedSets(b);
    StoreResult(Stored(updated), updated)
  }

  // Merging imported entries: the dedup key and a JavaScript Map.

  /** The dedup key of an entry: its hanzi without surrounding whitespace. */
  function Key(item: VocabItem): string {
    Text.Trim(item.hanzi)
  }

  /** One key/value pair of a `Map<string, VocabItem>`. */
  datatype Entry = Entry(key: string, item: VocabItem)

  /** Each entry paired with its dedup key, as the merge loops compute it. */
  function Tag(items: seq<VocabItem>): (r: seq<Entry>)
    ensures |r| == |items|
    ensures forall i :: 0 <= i < |items| ==> r[i] == Entry(Key(items[i]), items[i])
  {
    seq(|items|, i requires 0 <= i < |items| => Entry(Key(items[i]), items[i]))
  }

  /** The keys of a map, in insertion order. */
  function KeysOf(m: seq<Entry>): (r: seq<string>)
    ensures |r| == |m|
    ensures forall i :: 0 <= i < |m| ==> r[i] == m[i].key
  {
    seq(|m|, i requires 0 <= i < |m| => m[i].key)
  }

  /** The dedup keys of a list of entries, in order. */
  function ItemKeys(items: seq<VocabItem>): (r: seq<string>)
    ensures |r| == |items|
    ensures forall i :: 0 <= i < |items| ==> r[i] == Key(items[i])
  {
    KeysOf(Tag(items))
  }

  /** `Array.from(map.values())`. */
  function Values(m: seq<Entry>): (r: seq<VocabItem>)
    ensures |r| == |m|
    ensures forall i :: 0 <= i < |m| ==> r[i] == m[i].item
  {
    seq(|m|, i requires 0 <= i < |m| => m[i].item)
  }

  ghost predicate Distinct(s: seq<string>) {
    forall i, j :: 0 <= i < j < |s| ==> s[i] != s[j]
  }

  /** The position of `k` in the map, or its size when absent. */
  function IndexOf(m: seq<Entry>, k: string): (r: nat)
    ensures r <= |m|
    ensures r < |m| ==> m[r].key == k
    ensures r == |m| <==> k !in KeysOf(m)
  {
    if |m| == 0 then 0
    else if m[0].key == k then 0
    else
      var r := IndexOf(m[1..], k);
      KeysOfCons(m);
      1 + r
  }

  /** The keys of a non-empty map: the first key, then those of the rest. */
  lemma KeysOfCons(m: seq<Entry>)
    requires |m| > 0
    ensures KeysOf(m) == [m[0].key] + KeysOf(m[1..])
  {
  }

  /** `map.get(k)` for a key that is present. */
  function Get(m: seq<Entry>, k: string): (v: VocabItem)
    requires k in KeysOf(m)
    ensures Entry(k, v) in m
  {
    m[IndexOf(m, k)].item
  }

  /** In a map with distinct keys, `get` of an entry's key is its value. */
  lemma GetAt(m: seq<Entry>, i: nat)
    requires Distinct(KeysOf(m)) && i < |m|
    ensures m[i].key in KeysOf(m) && Get(m, m[i].key) == m[i].item
  {
    var j := IndexOf(m, m[i].key);
    assert KeysOf(m)[i] == m[i].key && KeysOf(m)[j] == m[i].key;
  }

  /** `map.set(k, v)`: a present key keeps its position and takes the new
      value; an absent key is appended. */
  function Put(m: seq<Entry>, k: string, v: VocabItem): (r: seq<Entry>)
    requires Distinct(KeysOf(m))
    ensures Distinct(KeysOf(r))
    ensures KeysOf(r) == if k in KeysOf(m) then KeysOf(m) else KeysOf(m) + [k]
    ensures forall i :: 0 <= i < |r| ==> r[i].item == if r[i].key == k then v else m[i].item
  {
    var i := IndexOf(m, k);
    if i < |m| then
      var r := m[i := Entry(k, v)];
      assert KeysOf(r) == KeysOf(m);
      r
    else
      var r := m + [Entry(k, v)];
      assert KeysOf(r) == KeysOf(m) + [k];
      r
  }

  /** Step 1 of the merge: every stored entry is `set` under its key, so a
      later entry with the same key replaces an earlier one in place. */
  function SeedOld(es: seq<Entry>): (m: seq<Entry>)
    ensures Distinct(KeysOf(m))
    ensures KeysOf(m) == Dedup(KeysOf(es))
    ensures forall i :: 0 <= i < |m| ==> m[i].key in KeysOf(es) && m[i].item == LastWith(es, m[i].key)
  {
    if |es| == 0 then []
    else
      var n := |es| - 1;
      assert KeysOf(es) == KeysOf(es[..n]) + [es[n].key];
      Put(SeedOld(es[..n]), es[n].key, es[n].item)
  }

  /** Step 2 of the merge: a new entry whose key is present replaces the
      value but keeps the present id; one whose key is absent is appended
      as it is. */
  function AddOne(m: seq<Entry>, e: Entry): (r: seq<Entry>)
    requires Distinct(KeysOf(m))
    ensures Distinct(KeysOf(r))
    ensures KeysOf(r) == if e.key in KeysOf(m) then KeysOf(m) else KeysOf(m) + [e.key]
    ensures forall i :: 0 <= i < |r| ==>
      r[i].item == if r[i].key != e.key then m[i].item
                   else if e.key in KeysOf(m) then e.item.(id := Get(m, e.key).id)
                   else e.item
  {
    if e.key in KeysOf(m) then Put(m, e.key, e.item.(id := Get(m, e.key).id)) else Put(m, e.key, e.item)
  }

  /** The value step 2 leaves under `k`, as a function of the map it
      started from and the new entries. */
  function Added(m: seq<Entry>, es: seq<Entry>, k: string): VocabItem
    requires k in KeysOf(m) || k in KeysOf(es)
  {
    if k in KeysOf(es) then
      LastWith(es, k).(id := if k in KeysOf(m) then Get(m, k).id else FirstWith(es, k).id)
    else Get(m, k)
  }

  /** Step 2 over all new entries, in order. */
  function AddNew(m: seq<Entry>, es: seq<Entry>): (r: seq<Entry>)
    requires Distinct(KeysOf(m))
    ensures Distinct(KeysOf(r))
    ensures KeysOf(r) == Dedup(KeysOf(m) + KeysOf(es))
  {
    if |es| == 0 then
      assert KeysOf(m) + KeysOf(es) == KeysOf(m);
      DedupOfDistinct(KeysOf(m));
      m
    else
      var n := |es| - 1;
      AddOneKeys(m, es);
      AddOne(AddNew(m, es[..n]), es[n])
  }

  /** Every entry of `r` holds the value `Added` describes for its key. */
  ghost predicate AsAdded(m: seq<Entry>, es: seq<Entry>, r: seq<Entry>) {
    forall i :: 0 <= i < |r| ==>
      (r[i].key in KeysOf(m) || r[i].key in KeysOf(es)) && r[i].item == Added(m, es, r[i].key)
  }

  /** Under each key, step 2 leaves the value `Added` describes. */
  lemma {:induction false} AddNewValues(m: seq<Entry>, es: seq<Entry>)
    requires Distinct(KeysOf(m))
    ensures AsAdded(m, es, AddNew(m, es))
  {
    if |es| == 0 {
      assert AddNew(m, es) == m;
      forall i | 0 <= i < |m| ensures m[i].key in KeysOf(m) && m[i].item == Added(m, es, m[i].key) {
        GetAt(m, i);
      }
    } else {
      var n := |es| - 1;
      var p, e := es[..n], es[n];
      assert p + [e] == es;
      var m1 := AddNew(m, p);
      assert AddNew(m, es) == AddOne(m1, e);
      AddNewValues(m, p);
      AddOneValues(m, p, e, m1);
    }
  }

  lemma AddOneKeys(m: seq<Entry>, es: seq<Entry>)
    requires |es| > 0
    ensures var n := |es| - 1;
      Dedup(KeysOf(m) + KeysOf(es))
      == if es[n].key in Dedup(KeysOf(m) + KeysOf(es[..n])) then Dedup(KeysOf(m) + KeysOf(es[..n]))
         else Dedup(KeysOf(m) + KeysOf(es[..n])) + [es[n].key]
  {
    var n := |es| - 1;
    var a := KeysOf(m) + KeysOf(es[..n]);
    assert KeysOf(m) + KeysOf(es) == a + [es[n].key];
    assert (a + [es[n].key])[..|a|] == a;
  }

  /** One more entry `e` after `p`: the values `Added` describes for `p`
      become those it describes for `p + [e]`. */
  lemma AddOneValues(m: seq<Entry>, p: seq<Entry>, e: Entry, m1: seq<Entry>)
    requires Distinct(KeysOf(m)) && Distinct(KeysOf(m1))
    requires KeysOf(m1) == Dedup(KeysOf(m) + KeysOf(p))
    requires AsAdded(m, p, m1)
    ensures AsAdded(m, p + [e], AddOne(m1, e))
  {
    var es := p + [e];
    assert es[..|p|] == p && es[|p|] == e;
    assert KeysOf(es) == KeysOf(p) + [e.key];
    var r := AddOne(m1, e);
    forall i | 0 <= i < |r|
      ensures (r[i].key in KeysOf(m) || r[i].key in KeysOf(es)) && r[i].item == Added(m, es, r[i].key)
    {
      var k := r[i].key;
      if k == e.key {
        assert LastWith(es, k) == e.item;
        if k in KeysOf(m1) {
          var j := IndexOf(m1, k);
          assert m1[j].key == k;
          if k in KeysOf(p) {
            assert FirstWith(es, k) == FirstWith(p, k);
          }
        } else {
          assert k !in KeysOf(m) && k !in KeysOf(p);
          assert FirstWith(es, k) == e.item;
        }
      } else {
        assert i < |m1| && m1[i].key == k;
        assert k in KeysOf(es) <==> k in KeysOf(p);
        if k in KeysOf(p) {
          assert LastWith(es, k) == LastWith(p, k);
          assert FirstWith(es, k) == FirstWith(p, k);
        }
      }
    }
  }

  /** `updateVocabSet`'s merge of the set's entries with the imported ones. */
  function MergeItems(stored: seq<VocabItem>, newItems: seq<VocabItem>): seq<VocabItem> {
    Values(AddNew(SeedOld(Tag(stored)), Tag(newItems)))
  }

  // The reference description of the merge.

  /** A list of keys with later repeats removed (first occurrence wins). */
  function Dedup(s: seq<string>): (r: seq<string>)
    ensures Distinct(r)
    ensures forall x :: x in r <==> x in s
  {
    if |s| == 0 then []
    else
      var n := |s| - 1;
      var d := Dedup(s[..n]);
      assert s == s[..n] + [s[n]];
      if s[n] in d then d else d + [s[n]]
  }

  lemma {:induction false} DedupOfDistinct(s: seq<string>)
    requires Distinct(s)
    ensures Dedup(s) == s
  {
    if |s| > 0 {
      DedupOfDistinct(s[..|s| - 1]);
    }
  }

  /** Appending keys that are all present already changes nothing. */
  lemma {:induction false} DedupAbsorbs(d: seq<string>, b: seq<string>)
    requires Distinct(d)
    requires forall x :: x in b ==> x in d
    ensures Dedup(d + b) == d
  {
    if |b| == 0 {
      assert d + b == d;
      DedupOfDistinct(d);
    } else {
      var p := b[..|b| - 1];
      DedupAbsorbs(d, p);
      assert (d + b)[..|d + b| - 1] == d + p;
    }
  }

  /** Deduplicating a prefix first does not change the overall result. */
  lemma {:induction false} DedupOfDedupPrefix(a: seq<string>, b: seq<string>)
    ensures Dedup(Dedup(a) + b) == Dedup(a + b)
  {
    if |b| == 0 {
      assert a + b == a && Dedup(a) + b == Dedup(a);
      DedupOfDistinct(Dedup(a));
    } else {
      var p := b[..|b| - 1];
      DedupOfDedupPrefix(a, p);
      assert (Dedup(a) + b)[..|Dedup(a) + b| - 1] == Dedup(a) + p;
      assert (a + b)[..|a + b| - 1] == a + p;
    }
  }

  /** The item of the last entry with key `k`. */
  function LastWith(es: seq<Entry>, k: string): (r: VocabItem)
    requires k in KeysOf(es)
    ensures Entry(k, r) in es
  {
    var n := |es| - 1;
    assert KeysOf(es) == KeysOf(es[..n]) + [es[n].key];
    if es[n].key == k then es[n].item else LastWith(es[..n], k)
  }

  /** The item of the first entry with key `k`. */
  function FirstWith(es: seq<Entry>, k: string): (r: VocabItem)
    requires k in KeysOf(es)
    ensures Entry(k, r) in es
  {
    var n := |es| - 1;
    assert KeysOf(es) == KeysOf(es[..n]) + [es[n].key];
    if k in KeysOf(es[..n]) then FirstWith(es[..n], k) else es[n].item
  }

  /** The entry the merge keeps under key `k`: the last imported entry with
      that key, carrying the id of the last stored entry with that key (or,
      for a key new to the set, of the first imported one); a key that is
      not imported keeps the last stored entry. */
  function MergedItem(stored: seq<VocabItem>, newItems: seq<VocabItem>, k: string): VocabItem
    requires k in ItemKeys(stored) || k in ItemKeys(newItems)
  {
    var so, ne := Tag(stored), Tag(newItems);
    if k in KeysOf(ne) then
      LastWith(ne, k).(id := if k in KeysOf(so) then LastWith(so, k).id else FirstWith(ne, k).id)
    else LastWith(so, k)
  }

  /** `r` is the merge of `newItems` into `stored` in the reference terms:
      its keys are the stored keys then the imported ones, each once and in
      order of first appearance, and under each key sits `MergedItem`. */
  ghost predicate IsMergeOf(stored: seq<VocabItem>, newItems: seq<VocabItem>, r: seq<VocabItem>) {
    && ItemKeys(r) == Dedup(ItemKeys(stored) + ItemKeys(newItems))
    && forall i :: 0 <= i < |r| ==>
      (ItemKeys(r)[i] in ItemKeys(stored) || ItemKeys(r)[i] in ItemKeys(newItems))
      && r[i] == MergedItem(stored, newItems, ItemKeys(r)[i])
  }

  /** A tagged entry carries its own item's key. */
  lemma TaggedKey(items: seq<VocabItem>, k: string, v: VocabItem)
    requires Entry(k, v) in Tag(items)
    ensures Key(v) == k
  {
  }

  /** The merge, in the reference terms: the keys are the stored keys then
      the imported ones, each once and in order of first appearance; under
      each key sits `MergedItem`. */
  lemma MergeSpec(stored: seq<VocabItem>, newItems: seq<VocabItem>)
    ensures IsMergeOf(stored, newItems, MergeItems(stored, newItems))
  {
    var so, ne := Tag(stored), Tag(newItems);
    var m := AddNew(SeedOld(so), ne);
    var r := Values(m);
    MergeByPosition(stored, newItems, m, r);
    DedupOfDedupPrefix(KeysOf(so), KeysOf(ne));
    assert ItemKeys(r) == Dedup(ItemKeys(stored) + ItemKeys(newItems));
  }

  /** The merged list, position by position: the keys are the map's keys
      and every entry is `MergedItem` of its key. */
  lemma MergeByPosition(stored: seq<VocabItem>, newItems: seq<VocabItem>, m: seq<Entry>, r: seq<VocabItem>)
    requires m == AddNew(SeedOld(Tag(stored)), Tag(newItems)) && r == Values(m)
    ensures ItemKeys(r) == KeysOf(m)
    ensures forall i :: 0 <= i < |r| ==>
      (m[i].key in ItemKeys(stored) || m[i].key in ItemKeys(newItems))
      && r[i] == MergedItem(stored, newItems, m[i].key)
  {
    forall i | 0 <= i < |r|
      ensures Key(r[i]) == m[i].key
      ensures m[i].key in ItemKeys(stored) || m[i].key in ItemKeys(newItems)
      ensures r[i] == MergedItem(stored, newItems, m[i].key)
    {
      MergeEntry(stored, newItems, m, i);
    }
    assert ItemKeys(r) == KeysOf(m);
  }

  /** One position of the merge: its entry's trimmed hanzi is the map key
      and the entry is `MergedItem` of that key. */
  lemma MergeEntry(stored: seq<VocabItem>, newItems: seq<VocabItem>, m: seq<Entry>, i: nat)
    requires m == AddNew(SeedOld(Tag(stored)), Tag(newItems)) && i < |m|
    ensures m[i].key in ItemKeys(stored) || m[i].key in ItemKeys(newItems)
    ensures Key(m[i].item) == m[i].key
    ensures m[i].item == MergedItem(stored, newItems, m[i].key)
  {
    var so, ne := Tag(stored), Tag(newItems);
    var m0 := SeedOld(so);
    AddNewValues(m0, ne);
    assert AsAdded(m0, ne, m);
    var k := m[i].key;
    assert (k in KeysOf(m0) || k in KeysOf(ne)) && m[i].item == Added(m0, ne, k);
    if k in KeysOf(m0) {
      var j := IndexOf(m0, k);
      assert m0[j].key == k;
    }
    if k in KeysOf(ne) {
      TaggedKey(newItems, k, LastWith(ne, k));
    } else {
      TaggedKey(stored, k, LastWith(so, k));
    }
  }

  /** After a merge no two entries share a trimmed hanzi. */
  lemma MergeKeysDistinct(stored: seq<VocabItem>, newItems: seq<VocabItem>)
    ensures Distinct(ItemKeys(MergeItems(stored, newItems)))
  {
    MergeSpec(stored, newItems);
  }

  /** In a list whose keys are distinct, the last entry with an entry's key
      is that entry. */
  lemma {:induction false} LastWithDistinct(es: seq<Entry>, j: nat)
    requires Distinct(KeysOf(es)) && j < |es|
    ensures LastWith(es, es[j].key) == es[j].item
  {
    var n := |es| - 1;
    var p := es[..n];
    if j < n {
      assert KeysOf(es)[j] != KeysOf(es)[n];
      assert Distinct(KeysOf(p)) by {
        forall a, b | 0 <= a < b < |p| ensures KeysOf(p)[a] != KeysOf(p)[b] {
          assert KeysOf(es)[a] != KeysOf(es)[b];
        }
      }
      LastWithDistinct(p, j);
    }
  }

  /** Importing the same entries twice gives the same entries as importing
      them once. */
  lemma MergeIdempotent(stored: seq<VocabItem>, newItems: seq<VocabItem>)
    ensures MergeItems(MergeItems(stored, newItems), newItems) == MergeItems(stored, newItems)
  {
    var m := MergeItems(stored, newItems);
    var m2 := MergeItems(m, newItems);
    MergeSpec(stored, newItems);
    MergeSpec(m, newItems);
    var ko, kn := ItemKeys(stored), ItemKeys(newItems);
    DedupAbsorbs(ItemKeys(m), kn);
    assert ItemKeys(m2) == ItemKeys(m);
    forall i | 0 <= i < |m| ensures m2[i] == m[i] {
      LastWithDistinct(Tag(m), i);
    }
  }

  /** An import that repeats a stored word with stray spaces updates that
      word in place under its old id, and appends the new word. */
  lemma MergeExample()
    ensures MergeItems(
        [VocabItem("a", "苹果", "pingguo", "Táo"), VocabItem("b", "水", "shui", "Nước")],
        [VocabItem("c", " 苹果 ", "píngguǒ", "Quả táo"), VocabItem("d", "茶", "chá", "Trà")])
      == [VocabItem("a", " 苹果 ", "píngguǒ", "Quả táo"), VocabItem("b", "水", "shui", "Nước"),
          VocabItem("d", "茶", "chá", "Trà")]
  {
    var stored := [VocabItem("a", "苹果", "pingguo", "Táo"), VocabItem("b", "水", "shui", "Nước")];
    var newItems := [VocabItem("c", " 苹果 ", "píngguǒ", "Quả táo"), VocabItem("d", "茶", "chá", "Trà")];
    var so := [Entry("苹果", stored[0]), Entry("水", stored[1])];
    var ne := [Entry("苹果", newItems[0]), Entry("茶", newItems[1])];
    ExampleTags(stored, newItems, so, ne);
    ExampleSeed(so);
    ExampleAdd(so, ne);
  }

  /** `" 苹果 ".trim()` is `"苹果"`. */
  lemma ExamplePadded()
    ensures Text.Trim(" 苹果 ") == "苹果"
  {
    var s := " 苹果 ";
    assert s[1..] == "苹果 ";
    assert Text.LeadingSpace("苹果 ") == 0;
    assert Text.LeadingSpace(s) == 1;
    assert Text.TrimStart(s) == "苹果 ";
    assert "苹果 "[..2] == "苹果";
    assert Text.TrimEnd("苹果") == "苹果";
    assert Text.TrimEnd("苹果 ") == "苹果";
  }

  lemma ExampleTags(stored: seq<VocabItem>, newItems: seq<VocabItem>, so: seq<Entry>, ne: seq<Entry>)
    requires stored == [VocabItem("a", "苹果", "pingguo", "Táo"), VocabItem("b", "水", "shui", "Nước")]
    requires newItems == [VocabItem("c", " 苹果 ", "píngguǒ", "Quả táo"), VocabItem("d", "茶", "chá", "Trà")]
    requires so == [Entry("苹果", stored[0]), Entry("水", stored[1])]
    requires ne == [Entry("苹果", newItems[0]), Entry("茶", newItems[1])]
    ensures Tag(stored) == so && Tag(newItems) == ne
  {
    Text.TrimOfTrimmed("苹果");
    Text.TrimOfTrimmed("水");
    Text.TrimOfTrimmed("茶");
    ExamplePadded();
    assert Key(stored[0]) == "苹果" && Key(stored[1]) == "水";
    assert Key(newItems[0]) == "苹果" && Key(newItems[1]) == "茶";
    ExampleTagPair(stored, "苹果", "水");
    ExampleTagPair(newItems, "苹果", "茶");
  }

  /** Tagging a two-entry list whose keys are known. */
  lemma ExampleTagPair(items: seq<VocabItem>, k0: string, k1: string)
    requires |items| == 2 && Key(items[0]) == k0 && Key(items[1]) == k1
    ensures Tag(items) == [Entry(k0, items[0]), Entry(k1, items[1])]
  {
  }

  lemma ExampleSeed(so: seq<Entry>)
    requires so == [Entry("苹果", VocabItem("a", "苹果", "pingguo", "Táo")), Entry("水", VocabItem("b", "水", "shui", "Nước"))]
    ensures SeedOld(so) == so
  {
    assert so[..1][..0] == [];
    assert SeedOld(so[..1]) == [so[0]];
  }

  lemma ExampleAdd(m0: seq<Entry>, ne: seq<Entry>)
    requires m0 == [Entry("苹果", VocabItem("a", "苹果", "pingguo", "Táo")), Entry("水", VocabItem("b", "水", "shui", "Nước"))]
    requires ne == [Entry("苹果", VocabItem("c", " 苹果 ", "píngguǒ", "Quả táo")), Entry("茶", VocabItem("d", "茶", "chá", "Trà"))]
    ensures Values(AddNew(m0, ne)) == [VocabItem("a", " 苹果 ", "píngguǒ", "Quả táo"), VocabItem("b", "水", "shui", "Nước"),
          VocabItem("d", "茶", "chá", "Trà")]
  {
    var e0 := Entry("苹果", VocabItem("a", " 苹果 ", "píngguǒ", "Quả táo"));
    var m1 := [e0, m0[1]];
    var m2 := [e0, m0[1], ne[1]];
    assert m1 + [ne[1]] == m2;
    ExampleAddUpdates(m0, ne[0], m1);
    ExampleAddAppends(m1, ne[1], m2);
    ExampleAddSteps(m0, ne, m1, m2);
    ValuesOfThree(e0, m0[1], ne[1]);
  }

  /** The values of a three-entry map, in order. */
  lemma ValuesOfThree(a: Entry, b: Entry, c: Entry)
    ensures Values([a, b, c]) == [a.item, b.item, c.item]
  {
  }

  /** The example's imports folded one by one: the update, then the
      append. */
  lemma ExampleAddSteps(m0: seq<Entry>, ne: seq<Entry>, m1: seq<Entry>, m2: seq<Entry>)
    requires |ne| == 2 && m2 == m1 + [ne[1]]
    requires Distinct(KeysOf(m0)) && Distinct(KeysOf(m1))
    requires AddOne(m0, ne[0]) == m1 && AddOne(m1, ne[1]) == m2
    ensures AddNew(m0, ne) == m2
  {
    AddNewEmpty(m0);
    AddNewSnoc(m0, [], ne[0]);
    assert [] + [ne[0]] == [ne[0]];
    AddNewSnoc(m0, [ne[0]], ne[1]);
    assert [ne[0]] + [ne[1]] == ne;
  }

  /** With no imports the map stays as it is. */
  lemma AddNewEmpty(m: seq<Entry>)
    requires Distinct(KeysOf(m))
    ensures AddNew(m, []) == m
  {
  }

  /** One more import is one more `AddOne`. */
  lemma AddNewSnoc(m: seq<Entry>, p: seq<Entry>, e: Entry)
    requires Distinct(KeysOf(m))
    ensures AddNew(m, p + [e]) == AddOne(AddNew(m, p), e)
  {
    assert (p + [e])[..|p|] == p;
  }

  /** The first import of the example finds `苹果` and replaces its value in
      place under the stored id. */
  lemma ExampleAddUpdates(m0: seq<Entry>, e: Entry, m1: seq<Entry>)
    requires m0 == [Entry("苹果", VocabItem("a", "苹果", "pingguo", "Táo")), Entry("水", VocabItem("b", "水", "shui", "Nước"))]
    requires e == Entry("苹果", VocabItem("c", " 苹果 ", "píngguǒ", "Quả táo"))
    requires m1 == [Entry("苹果", VocabItem("a", " 苹果 ", "píngguǒ", "Quả táo")), m0[1]]
    ensures Distinct(KeysOf(m0)) && Distinct(KeysOf(m1)) && AddOne(m0, e) == m1
  {
    assert KeysOf(m0) == ["苹果", "水"];
    assert IndexOf(m0, "苹果") == 0;
    assert AddOne(m0, e) == Put(m0, "苹果", e.item.(id := "a")) == m1;
  }

  /** The second import of the example, `茶`, is new and is appended as
      it is. */
  lemma ExampleAddAppends(m1: seq<Entry>, e: Entry, m2: seq<Entry>)
    requires m1 == [Entry("苹果", VocabItem("a", " 苹果 ", "píngguǒ", "Quả táo")), Entry("水", VocabItem("b", "水", "shui", "Nước"))]
    requires e == Entry("茶", VocabItem("d", "茶", "chá", "Trà"))
    requires m2 == m1 + [e]
    ensures Distinct(KeysOf(m1)) && AddOne(m1, e) == m2
  {
    assert KeysOf(m1) == ["苹果", "水"];
    assert IndexOf(m1, "茶") == 2;
    assert AddOne(m1, e) == Put(m1, "茶", e.item) == m2;
  }

  // Updating and deleting sets.

  /** `findIndex` by set id: the first position with that id, or -1. */
  function FindSetIndex(sets: seq<VocabSet>, id: string): (r: int)
    ensures -1 <= r < |sets|
    ensures r >= 0 ==> sets[r].id == id && forall j :: 0 <= j < r ==> sets[j].id != id
    ensures r == -1 ==> forall j :: 0 <= j < |sets| ==> sets[j].id != id
  {
    if |sets| == 0 then -1
    else if sets[0].id == id then 0
    else
      var r := FindSetIndex(sets[1..], id);
      if r == -1 then -1 else r + 1
  }

  /** `updateVocabSet`: merges `newItems` into the first set with id
      `setId` and saves; with no such set, returns the stored sets and
      leaves the slot alone. */
  function UpdateVocabSet(b: Blob, setId: string, newItems: seq<VocabItem>): (r: StoreResult)
    ensures GetSavedSets(r.blob) == r.sets
    ensures FindSetIndex(GetSavedSets(b), setId) == -1 ==> r == StoreResult(b, GetSavedSets(b))
    ensures var cur := GetSavedSets(b); var t := FindSetIndex(cur, setId);
      t >= 0 ==>
        && |r.sets| == |cur|
        && (forall j :: 0 <= j < |cur| && j != t ==> r.sets[j] == cur[j])
        && r.sets[t].id == cur[t].id && r.sets[t].name == cur[t].name
        && r.sets[t].createdAt == cur[t].createdAt
        && r.sets[t].items == MergeItems(cur[t].items, newItems)
  {
    var current := GetSavedSets(b);
    var t := FindSetIndex(current, setId);
    if t == -1 then StoreResult(b, current)
    else
      var target := current[t];
      var updated := current[t := target.(items := MergeItems(target.items, newItems))];
      StoreResult(Stored(updated), updated)
  }

  /** Repeating an import changes nothing: the slot and the returned sets
      are those of the first import. */
  lemma UpdateIdempotent(b: Blob, setId: string, newItems: seq<VocabItem>)
    ensures UpdateVocabSet(UpdateVocabSet(b, setId, newItems).blob, setId, newItems)
         == UpdateVocabSet(b, setId, newItems)
  {
    var cur := GetSavedSets(b);
    var t := FindSetIndex(cur, setId);
    if t >= 0 {
      var merged := MergeItems(cur[t].items, newItems);
      var once := cur[t := cur[t].(items := merged)];
      assert UpdateVocabSet(b, setId, newItems) == StoreResult(Stored(once), once);
      FindSetIndexSameIds(cur, once, setId);
      MergeIdempotent(cur[t].items, newItems);
      assert once[t := once[t].(items := MergeItems(once[t].items, newItems))] == once;
    }
  }

  /** Changing the entries of a set does not move `findIndex`. */
  lemma {:induction false} FindSetIndexSameIds(a: seq<VocabSet>, b: seq<VocabSet>, id: string)
    requires |a| == |b| && forall j :: 0 <= j < |a| ==> a[j].id == b[j].id
    ensures FindSetIndex(a, id) == FindSetIndex(b, id)
  {
    if |a| > 0 {
      FindSetIndexSameIds(a[1..], b[1..], id);
    }
  }

  /** The sets whose id differs from `id`, in their original order. */
  function KeepOthers(sets: seq<VocabSet>, id: string): (r: seq<VocabSet>)
    ensures |r| <= |sets|
    ensures forall s :: s in r <==> s in sets && s.id != id
  {
    if |sets| == 0 then []
    else
      var n := |sets| - 1;
      var p := KeepOthers(sets[..n], id);
      assert sets == sets[..n] + [sets[n]];
      if sets[n].id != id then p + [sets[n]] else p
  }

  /** Filtering respects concatenation, so the kept sets stay in their
      original order. */
  lemma {:induction false} KeepOthersAppend(a: seq<VocabSet>, b: seq<VocabSet>, id: string)
    ensures KeepOthers(a + b, id) == KeepOthers(a, id) + KeepOthers(b, id)
  {
    if |b| > 0 {
      var n := |b| - 1;
      KeepOthersAppend(a, b[..n], id);
      assert (a + b)[..|a + b| - 1] == a + b[..n];
    } else {
      assert a + b == a;
    }
  }

  /** The filter keeps every other set as often as it occurs and drops
      every copy of a set with the id. */
  lemma {:induction false} KeepOthersCounts(sets: seq<VocabSet>, id: string, s: VocabSet)
    ensures multiset(KeepOthers(sets, id))[s] == if s.id != id then multiset(sets)[s] else 0
  {
    if |sets| > 0 {
      var n := |sets| - 1;
      KeepOthersCounts(sets[..n], id, s);
      assert sets == sets[..n] + [sets[n]];
      assert multiset(sets) == multiset(sets[..n]) + multiset{sets[n]};
    }
  }

  /** Deleting an id no set carries leaves the sets as they were. */
  lemma {:induction false} KeepOthersNoMatch(sets: seq<VocabSet>, id: string)
    requires forall j :: 0 <= j < |sets| ==> sets[j].id != id
    ensures KeepOthers(sets, id) == sets
  {
    if |sets| > 0 {
      var n := |sets| - 1;
      var p := sets[..n];
      assert forall j :: 0 <= j < |p| ==> p[j] == sets[j];
      KeepOthersNoMatch(p, id);
      assert sets[n].id != id;
      assert sets == p + [sets[n]];
    }
  }

  /** `deleteVocabSet`: keeps the sets with another id and saves them. */
  function DeleteVocabSet(b: Blob, id: string): (r: StoreResult)
    ensures GetSavedSets(r.blob) == r.sets
    ensures forall s :: s in r.sets <==> s in GetSavedSets(b) && s.id != id
    ensures (forall s :: s in GetSavedSets(b) ==> s.id != id) ==> r.sets == GetSavedSets(b)
    ensures r.sets == KeepOthers(GetSavedSets(b), id)
  {
    var current := GetSavedSets(b);
    var kept := KeepOthers(current, id);
    assert (forall s :: s in current ==> s.id != id) ==> kept == current by {
      if forall s :: s in current ==> s.id != id {
        KeepOthersNoMatch(current, id);
      }
    }
    StoreResult(Stored(kept), kept)
  }
}
