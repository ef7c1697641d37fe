/** The bounded cache of ads over the storage file: at most a fixed number of ads are in memory, and
    changed ones are written back when they are put out. */
module Caches {
  import opened Expressions
  import opened Members
  import opened Views
  import opened Transactions
  import opened StorageLines
  import opened IndexFiles

  const MAX_CACHE_SIZE := 5

  /** How a key and an ad are written as one line of text and read back, and which can be. */
  datatype Codec = Codec(
    keyOf: KeyOf,
    textOf: (Key, Ad) -> string,
    adOf: string -> Ad,
    storable: (Key, Ad) -> bool)

  ghost predicate Faithful(codec: Codec) {
    forall k, a :: codec.storable(k, a) ==> Writes(codec, k, a, codec.textOf(k, a))
  }

  predicate Writes(codec: Codec, key: Key, ad: Ad, text: string) {
    GoodLine(text) && IsLive(text) && codec.keyOf(text) == key && codec.adOf(text) == ad
  }

  /** The ads of stored texts. */
  function AdsOf(codec: Codec, texts: map<Key, string>): (r: map<Key, Ad>) {
    map k | k in texts :: codec.adOf(texts[k])
  }

  // --------------------------------------------------------- the cache as a value

  datatype Cache = Cache(table: map<Key, Ad>, dirty: set<Key>, count: int, texts: map<Key, string>)

  /** The collection as a plain map: the stored ads, with those in memory on top. */
  function Content(codec: Codec, c: Cache): (r: map<Key, Ad>) {
    AdsOf(codec, c.texts) + c.table
  }

  predicate AsStored(codec: Codec, c: Cache, key: Key)
    requires key in c.table
  {
    key in c.texts && codec.adOf(c.texts[key]) == c.table[key]
  }

  /** An ad not marked as changed is as stored, and all ads can be stored. A key that is no longer in
      memory may still be marked. */
  ghost predicate Clean(codec: Codec, c: Cache) {
    && (forall k :: k in c.table && k !in c.dirty ==> AsStored(codec, c, k))
    && (forall k :: k in c.table ==> codec.storable(k, c.table[k]))
    && (forall k :: k in c.texts ==> codec.storable(k, codec.adOf(c.texts[k])))
  }

  predicate Counted(c: Cache) {
    c.count == |c.table| <= MAX_CACHE_SIZE
  }

  /** An ad put out of memory, after it is written back if it has changed. */
  function Evicted(codec: Codec, c: Cache, key: Key): (r: Cache)
    requires key in c.table
  {
    var texts := if key in c.dirty then c.texts[key := codec.textOf(key, c.table[key])] else c.texts;
    Cache(c.table - {key}, c.dirty - {key}, c.count - 1, texts)
  }

  function Fetched(codec: Codec, c: Cache, key: Key): (r: Cache)
    requires key in c.texts
  {
    c.(table := c.table[key := codec.adOf(c.texts[key])], count := c.count + 1)
  }

  function Entered(c: Cache, key: Key, ad: Ad): (r: Cache) {
    c.(table := c.table[key := ad], dirty := c.dirty + {key}, count := c.count + if key in c.table then 0 else 1)
  }

  function Discarded(c: Cache, key: Key): (r: Cache) {
    if key in c.table then c.(table := c.table - {key}, count := c.count - 1) else c
  }

  // ---------------------------------------------------- what each step keeps

  /** What the collection holds for a key. */
  function Held(codec: Codec, c: Cache, key: Key): (r: Option<Ad>) {
    if key in c.table then Some(c.table[key])
    else if key in c.texts then Some(codec.adOf(c.texts[key]))
    else None
  }

  lemma ContentHolds(codec: Codec, c: Cache, key: Key)
    ensures Held(codec, c, key) == Get(Content(codec, c), key)
  {
  }

  /** Two caches that hold the same for every key are the same collection. */
  lemma SameContent(codec: Codec, c: Cache, d: map<Key, Ad>)
    requires forall k :: Held(codec, c, k) == Get(d, k)
    ensures Content(codec, c) == d
  {
    hide Content;
    hide Held;
    forall k ensures Get(Content(codec, c), k) == Get(d, k) {
      ContentHolds(codec, c, k);
    }
    SameGets(Content(codec, c), d);
  }

  lemma EvictedKeeps(codec: Codec, c: Cache, key: Key)
    requires Faithful(codec) && Counted(c) && Clean(codec, c) && key in c.table
    ensures var c' := Evicted(codec, c, key);
            Counted(c') && Clean(codec, c') && Content(codec, c') == Content(codec, c)
  {
    hide Content;
    hide Faithful;
    WritesText(codec, key, c.table[key]);
    var c' := Evicted(codec, c, key);
    SizeWithout(c.table, key);
    assert key !in c.dirty ==> AsStored(codec, c, key);
    forall k | k in c'.table && k !in c'.dirty ensures AsStored(codec, c', k) {
      assert AsStored(codec, c, k);
    }
    forall k ensures Held(codec, c', k) == Get(Content(codec, c), k) {
      ContentHolds(codec, c, k);
    }
    SameContent(codec, c', Content(codec, c));
  }

  lemma FetchedKeeps(codec: Codec, c: Cache, key: Key)
    requires Counted(c) && Clean(codec, c) && key in c.texts && key !in c.table && c.count < MAX_CACHE_SIZE
    ensures var c' := Fetched(codec, c, key);
            Counted(c') && Clean(codec, c') && Content(codec, c') == Content(codec, c)
  {
    hide Content;
    var c' := Fetched(codec, c, key);
    SizeWith(c.table, key, codec.adOf(c.texts[key]));
    forall k | k in c'.table && k !in c'.dirty ensures AsStored(codec, c', k) {
      assert k != key ==> AsStored(codec, c, k);
    }
    forall k ensures Held(codec, c', k) == Get(Content(codec, c), k) {
      ContentHolds(codec, c, k);
    }
    SameContent(codec, c', Content(codec, c));
  }

  lemma EnteredKeeps(codec: Codec, c: Cache, key: Key, ad: Ad)
    requires Counted(c) && Clean(codec, c) && (key in c.table || c.count < MAX_CACHE_SIZE) && codec.storable(key, ad)
    ensures var c' := Entered(c, key, ad);
            Counted(c') && Clean(codec, c') && Content(codec, c') == Content(codec, c)[key := ad]
  {
    hide Content;
    var c' := Entered(c, key, ad);
    SizeWith(c.table, key, ad);
    forall k | k in c'.table && k !in c'.dirty ensures AsStored(codec, c', k) {
      assert AsStored(codec, c, k);
    }
    forall k ensures Held(codec, c', k) == Get(Content(codec, c)[key := ad], k) {
      ContentHolds(codec, c, k);
    }
    SameContent(codec, c', Content(codec, c)[key := ad]);
  }

  /** Without a key in memory, whether or not it is also taken out of the file. */
  lemma DiscardedKeeps(codec: Codec, c: Cache, key: Key, texts: map<Key, string>)
    requires Counted(c) && Clean(codec, c) && (texts == c.texts || texts == c.texts - {key})
    ensures var c' := Discarded(c, key).(texts := texts);
            && Counted(c') && Clean(codec, c')
            && (texts == c.texts - {key} ==> Content(codec, c') == Content(codec, c) - {key})
            && Content(codec, c') - {key} == Content(codec, c) - {key}
  {
    hide Content;
    hide Clean;
    hide Counted;
    hide Held;
    hide Discarded;
    var c' := Discarded(c, key).(texts := texts);
    DiscardedClean(codec, c, key, texts);
    var d := Content(codec, c) - {key};
    forall k ensures Get(Content(codec, c') - {key}, k) == Get(d, k) {
      DiscardedHeld(codec, c, key, texts, k);
      ContentHolds(codec, c', k);
      ContentHolds(codec, c, k);
    }
    SameGets(Content(codec, c') - {key}, d);
    if texts == c.texts - {key} {
      forall k ensures Held(codec, c', k) == Get(d, k) {
        DiscardedHeld(codec, c, key, texts, k);
        ContentHolds(codec, c, k);
      }
      SameContent(codec, c', d);
    }
  }

  lemma DiscardedHeld(codec: Codec, c: Cache, key: Key, texts: map<Key, string>, k: Key)
    requires texts == c.texts || texts == c.texts - {key}
    ensures var c' := Discarded(c, key).(texts := texts);
            && (k != key ==> Held(codec, c', k) == Held(codec, c, k))
            && (texts == c.texts - {key} ==> Held(codec, c', key) == None)
  {
  }

  lemma DiscardedClean(codec: Codec, c: Cache, key: Key, texts: map<Key, string>)
    requires Counted(c) && Clean(codec, c) && (texts == c.texts || texts == c.texts - {key})
    ensures var c' := Discarded(c, key).(texts := texts); Counted(c') && Clean(codec, c')
  {
    var c' := Discarded(c, key).(texts := texts);
    if key in c.table {
      SizeWithout(c.table, key);
    }
    forall k | k in c'.table && k !in c'.dirty ensures AsStored(codec, c', k) {
      assert AsStored(codec, c, k);
    }
  }

  class CachedCollection {
    const codec: Codec
    const storage: IndexFile
    var classadTable: map<Key, Ad>
    var DirtyClassad: set<Key>
    var Max_Classad: int

    ghost function Now(): (c: Cache)
      reads this, storage
    {
      Cache(classadTable, DirtyClassad, Max_Classad, storage.Texts())
    }

    ghost predicate Valid()
      reads this, storage
    {
      Faithful(codec) && storage.Valid() && storage.keyOf == codec.keyOf && Counted(Now()) && Clean(codec, Now())
    }

    ghost function Ads(): (r: map<Key, Ad>)
      reads this, storage
    {
      Content(codec, Now())
    }

    constructor (codec: Codec)
      requires Faithful(codec)
      ensures Valid() && fresh(storage) && Ads() == map[]
    {
      this.codec := codec;
      storage := new IndexFile(codec.keyOf);
      classadTable, DirtyClassad, Max_Classad := map[], {}, 0;
      new;
      assert AdsOf(codec, map[]) == map[];
    }

    /** Any ad in memory may be chosen. */
    method SelectClassadToReplace() returns (key: Key)
      requires |classadTable| > 0
      ensures key in classadTable
    {
      assert |classadTable.Keys| == |classadTable|;
      key :| key in classadTable.Keys;
    }

    /** Makes room if there is none, at the cost of one ad, whichever it is. */
    method MaybeSwapOutClassAd(ghost wanted: Key)
      requires Valid() && wanted !in classadTable
      modifies this, storage
      ensures Valid() && Ads() == old(Ads()) && Max_Classad == |classadTable| < 5 && wanted !in classadTable
      ensures wanted in storage.Texts() <==> wanted in old(storage.Texts())
    {
      hide IndexFile.Valid;
      hide Faithful;
      hide Clean;
      hide Content;
      if Max_Classad == MAX_CACHE_SIZE {
        var key := SelectClassadToReplace();
        EvictedKeeps(codec, Now(), key);
        if key in DirtyClassad {
          TableStorable(codec, Now(), key);
          var text := codec.textOf(key, classadTable[key]);
          WritesText(codec, key, classadTable[key]);
          storage.WriteBack(key, text);
          DirtyClassad := DirtyClassad - {key};
        } else {
          assert DirtyClassad - {key} == DirtyClassad;
        }
        classadTable := classadTable - {key};
        Max_Classad := Max_Classad - 1;
      }
    }

    /** Brings a stored ad into memory. */
    method SwitchInClassAd(key: Key)
      requires Valid() && key !in classadTable && key in storage.Texts()
      modifies this, storage
      ensures Valid() && Ads() == old(Ads()) && key in classadTable
    {
      hide IndexFile.Valid;
      hide Faithful;
      hide Clean;
      hide Content;
      MaybeSwapOutClassAd(key);
      var found, offset := storage.FindInFile(key);
      var text := storage.GetClassadFromFile(key, offset);
      FetchedKeeps(codec, Now(), key);
      classadTable := classadTable[key := codec.adOf(text)];
      Max_Classad := Max_Classad + 1;
    }

    // ------------------------------------------------------------- operations

    method AddClassAd(key: Key, ad: Ad)
      requires Valid() && codec.storable(key, ad)
      modifies this, storage
      ensures Valid() && Ads() == old(Ads())[key := ad]
    {
      hide IndexFile.Valid;
      hide Faithful;
      hide Clean;
      hide Content;
      DropOld(key);
      ReplacedAlike(Ads(), old(Ads()), key, ad);
      MaybeSwapOutClassAd(key);
      EnteredKeeps(codec, Now(), key, ad);
      DirtyClassad := DirtyClassad + {key};
      Max_Classad := Max_Classad + 1;
      classadTable := classadTable[key := ad];
    }

    /** An ad about to be replaced leaves memory, or else the file. */
    method DropOld(key: Key)
      requires Valid()
      modifies this, storage
      ensures Valid() && key !in classadTable && Ads() - {key} == old(Ads()) - {key}
    {
      hide IndexFile.Valid;
      hide Faithful;
      hide Clean;
      hide Content;
      if key in classadTable {
        DiscardedKeeps(codec, Now(), key, Now().texts);
        classadTable := classadTable - {key};
        Max_Classad := Max_Classad - 1;
      } else {
        DiscardedKeeps(codec, Now(), key, Now().texts - {key});
        var _ := storage.DeleteFromStorageFile(key);
      }
    }

    /** The ad of a key, brought into memory if it is only stored. */
    method GetClassAd(key: Key) returns (ad: Option<Ad>)
      requires Valid()
      modifies this, storage
      ensures Valid() && Ads() == old(Ads())
      ensures ad == (if key in Ads() then Some(Ads()[key]) else None)
      ensures ad.Some? ==> key in classadTable && classadTable[key] == ad.value
    {
      hide IndexFile.Valid;
      hide Faithful;
      hide Clean;
      if key !in classadTable {
        var found, _ := storage.FindInFile(key);
        if !found {
          return None;
        }
        SwitchInClassAd(key);
      }
      return Some(classadTable[key]);
    }

    /** Updating and modifying: the ad is replaced by what the change makes of it. */
    method ChangeClassAd(key: Key, change: Ad -> Ad) returns (ok: bool)
      requires Valid() && (key in Ads() ==> codec.storable(key, change(Ads()[key])))
      modifies this, storage
      ensures Valid() && ok == (key in old(Ads()))
      ensures Ads() == if ok then old(Ads())[key := change(old(Ads())[key])] else old(Ads())
    {
      hide IndexFile.Valid;
      hide Faithful;
      hide Clean;
      hide Content;
      var ad := GetClassAd(key);
      if ad.None? {
        return false;
      }
      TableStorable(codec, Now(), key);
      EnteredKeeps(codec, Now(), key, change(ad.value));
      classadTable := classadTable[key := change(ad.value)];
      DirtyClassad := DirtyClassad + {key};
      return true;
    }

    method RemoveClassAd(key: Key)
      requires Valid()
      modifies this, storage
      ensures Valid() && Ads() == old(Ads()) - {key}
    {
      hide IndexFile.Valid;
      hide Faithful;
      hide Clean;
      hide Content;
      DiscardedKeeps(codec, Now(), key, Now().texts - {key});
      var deleted := storage.DeleteFromStorageFile(key);
      if key in classadTable {
        Max_Classad := Max_Classad - 1;
        classadTable := classadTable - {key};
      }
    }
  }

  lemma TableStorable(codec: Codec, c: Cache, key: Key)
    requires Clean(codec, c) && key in c.table
    ensures codec.storable(key, c.table[key])
  {
  }

  lemma WritesText(codec: Codec, key: Key, ad: Ad)
    requires Faithful(codec) && codec.storable(key, ad)
    ensures Writes(codec, key, ad, codec.textOf(key, ad))
  {
  }

  lemma ReplacedAlike(a: map<Key, Ad>, b: map<Key, Ad>, key: Key, ad: Ad)
    requires a - {key} == b - {key}
    ensures a[key := ad] == b[key := ad]
  {
    assert a[key := ad] == (a - {key})[key := ad];
    assert b[key := ad] == (b - {key})[key := ad];
  }

  lemma SizeWithout(m: map<Key, Ad>, key: Key)
    requires key in m
    ensures |m - {key}| == |m| - 1
  {
    assert (m - {key}).Keys == m.Keys - {key};
    assert |m.Keys - {key}| == |m.Keys| - 1;
    assert |m - {key}| == |(m - {key}).Keys|;
    assert |m| == |m.Keys|;
  }

  lemma SizeWith(m: map<Key, Ad>, key: Key, ad: Ad)
    ensures |m[key := ad]| == |m| + (if key in m then 0 else 1)
  {
    var m' := m[key := ad];
    assert m'.Keys == m.Keys + {key};
    assert |m'| == |m'.Keys| && |m| == |m.Keys|;
  }
}
