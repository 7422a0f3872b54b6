/** The pools and the link-ID buffer of TextMeshPro's
    Scripts/Runtime/TMPro_MeshUtilities.cs: `ListArrayPool<T>` (free arrays
    kept per length, last in first out, at most 512 per length),
    `ItemPool<T>` (a stack of at most 128 free items), `TMP_LinkInfo`'s
    reusable `linkID` buffer, and `Extents`. The pools are static in the
    source, one per element type; here each is one object. */
module TmpMeshUtilities {
  import opened Wrappers

  // ---------------------------------------------------------------------
  // Extents

  datatype Vector2 = Vector2(x: real, y: real)

  datatype Extents = Extents(min: Vector2, max: Vector2)

  /** `Extents.zero`: both corners at `Vector2.zero`. */
  const ZeroExtents: Extents := Extents(Vector2(0.0, 0.0), Vector2(0.0, 0.0))

  /** `Extents.uninitialized`: an inverted box that any point enlarges. */
  const UninitializedExtents: Extents := Extents(Vector2(32767.0, 32767.0), Vector2(-32767.0, -32767.0))

  // ---------------------------------------------------------------------
  // ListArrayPool<T>

  /** `DEFAULT_MAX_SIZE` of `ListArrayPool`. */
  const MaxArrays := 512

  /** `m_dicDicList`: array length to the free arrays of that length, the
      most recently recycled last. A C# list may hold `null`. */
  type Buckets<T> = map<int, seq<array?<T>>>

  /** Every bucket is keyed by the length of its arrays and holds at most
      512 of them. */
  predicate ValidBuckets<T>(b: Buckets<T>) {
    forall k :: k in b ==>
      |b[k]| <= MaxArrays &&
      forall i :: 0 <= i < |b[k]| && b[k][i] != null ==> b[k][i].Length == k
  }

  /** The arrays bucket `n` holds. */
  ghost function Live<T>(b: Buckets<T>, n: int): set<array?<T>> {
    if n in b then set a | a in b[n] && a != null else {}
  }

  /** What `AlocArray(n)` takes from the pool: the last entry of bucket `n`,
      where a `null` last entry is dropped and the next one tried. `None`
      when the bucket is missing or runs out, and the caller allocates. */
  function Take<T>(b: Buckets<T>, n: int): (r: (Option<array<T>>, Buckets<T>))
    ensures r.1.Keys == b.Keys
    ensures forall k :: k in b && k != n ==> r.1[k] == b[k]
    ensures n in b ==> |r.1[n]| <= |b[n]| && r.1[n] == b[n][..|r.1[n]|]
    ensures r.0.None? ==> (n in b ==> r.1[n] == [] && forall i :: 0 <= i < |b[n]| ==> b[n][i] == null)
    ensures r.0.Some? ==> n in b && |r.1[n]| < |b[n]| && b[n][|r.1[n]|] == r.0.value &&
                          forall i :: |r.1[n]| < i < |b[n]| ==> b[n][i] == null
    decreases if n in b then |b[n]| else 0
  {
    if n in b && |b[n]| > 0 then
      var last := b[n][|b[n]| - 1];
      var rest := b[n := b[n][..|b[n]| - 1]];
      if last == null then Take(rest, n) else (Some(last), rest)
    else (None, b)
  }

  /** Taking keeps the pool valid and hands out an array of the asked length. */
  lemma {:induction false} TakeValid<T>(b: Buckets<T>, n: int)
    requires ValidBuckets(b)
    ensures ValidBuckets(Take(b, n).1)
    ensures Take(b, n).0.Some? ==> Take(b, n).0.value.Length == n && Take(b, n).0.value in Live(b, n)
  {
    var r := Take(b, n);
    if r.0.Some? {
      var i := |r.1[n]|;
      assert b[n][i] == r.0.value;
      assert b[n][i] in b[n];
    }
  }

  /** The bucket of length `k`, empty when the dictionary has no entry. */
  function Bucket<T>(b: Buckets<T>, k: int): seq<array?<T>> {
    if k in b then b[k] else []
  }

  /** What `RecycleArray(a)` does to the pool: the bucket of `a.Length` is
      created if missing, and `a` is appended unless it already holds 512. */
  function Recycled<T>(b: Buckets<T>, a: array<T>): (r: Buckets<T>)
    ensures r.Keys == b.Keys + {a.Length}
    ensures forall k :: k in b && k != a.Length ==> r[k] == b[k]
    ensures |Bucket(b, a.Length)| < MaxArrays ==> r[a.Length] == Bucket(b, a.Length) + [a]
    ensures MaxArrays <= |Bucket(b, a.Length)| ==> r == b
    ensures ValidBuckets(b) ==> ValidBuckets(r)
  {
    var bucket := Bucket(b, a.Length);
    b[a.Length := if |bucket| < MaxArrays then bucket + [a] else bucket]
  }

  /** Recycling an array into a bucket with room and then allocating its
      length gives the same array back and leaves the pool as it was (bar an
      empty bucket that recycling created). */
  lemma RecycleThenTake<T>(b: Buckets<T>, a: array<T>)
    requires |Bucket(b, a.Length)| < MaxArrays
    ensures Take(Recycled(b, a), a.Length) == (Some(a), b[a.Length := Bucket(b, a.Length)])
  {
    var r := Recycled(b, a);
    var bucket := Bucket(b, a.Length);
    assert r[a.Length][..|r[a.Length]| - 1] == bucket;
    assert r[a.Length := bucket] == b[a.Length := bucket];
  }

  /** `ListArrayPool<T>`. */
  class ListArrayPool<T(0)> {
    var buckets: Buckets<T>

    predicate Valid()
      reads this
    {
      ValidBuckets(buckets)
    }

    constructor ()
      ensures buckets == map[] && Valid()
    {
      buckets := map[];
    }

    /** `AlocArray(nCount)`: the most recently recycled array of that length,
        discarding `null` entries by retrying, else a fresh one. A negative
        length with nothing to pop would make `new T[nCount]` throw. */
    method AlocArray(n: int) returns (a: array<T>)
      requires Valid() && 0 <= n
      modifies this
      ensures Valid()
      ensures buckets == Take(old(buckets), n).1
      ensures Take(old(buckets), n).0.Some? ==> a == Take(old(buckets), n).0.value
      ensures Take(old(buckets), n).0.None? ==> fresh(a)
      ensures a.Length == n && (fresh(a) || a in Live(old(buckets), n))
      decreases if n in buckets then |buckets[n]| else 0
    {
      TakeValid(buckets, n);
      if n in buckets && |buckets[n]| > 0 {
        var index := |buckets[n]| - 1;
        var v := buckets[n][index];
        ghost var before := buckets;
        buckets := buckets[n := buckets[n][..index]];
        TakeValid(buckets, n);
        if v == null {
          a := AlocArray(n);
          assert Live(buckets, n) <= Live(before, n);
          return;
        }
        a := v;
        assert a == before[n][index];
        return;
      }
      a := new T[n];
    }

    /** `RecycleArray(arry)`: `null` is ignored; otherwise the array goes on
        the bucket of its length while that bucket has room. */
    method RecycleArray(arr: array?<T>)
      requires Valid()
      modifies this
      ensures Valid()
      ensures arr == null ==> buckets == old(buckets)
      ensures arr != null ==> buckets == Recycled(old(buckets), arr)
    {
      if arr == null {
        return;
      }
      var count := arr.Length;
      var stack := if count in buckets then buckets[count] else [];
      if count !in buckets {
        buckets := buckets[count := stack];
      }
      if |stack| < MaxArrays {
        buckets := buckets[count := stack + [arr]];
      }
    }

    /** `Resize(ref src, size)`: nothing when `src` is long enough; otherwise
        a pooled or fresh array of length `size` takes a copy of `src` in its
        first `src.Length` slots and `src` is recycled. The result is what
        the `ref` parameter holds afterwards. */
    method Resize(src: array<T>, size: int) returns (dst: array<T>)
      requires Valid()
      modifies this, Live(buckets, size)
      ensures Valid()
      ensures src.Length >= size ==> dst == src && buckets == old(buckets)
      ensures src.Length < size ==>
                dst.Length == size && dst != src && dst[..src.Length] == old(src[..]) &&
                buckets == Recycled(Take(old(buckets), size).1, src) &&
                (Take(old(buckets), size).0.Some? ==> dst == Take(old(buckets), size).0.value) &&
                (Take(old(buckets), size).0.None? ==> fresh(dst))
      ensures src[..] == old(src[..])
      ensures forall a | a in old(Live(buckets, size)) && a != null && a != dst :: a[..] == old(a[..])
      ensures src.Length < size && dst in old(Live(buckets, size)) ==> dst[src.Length..] == old(dst[src.Length..])
    {
      if src.Length >= size {
        return src;
      }
      dst := AlocArray(size);
      CopyPrefix(src, dst);
      RecycleArray(src);
    }
  }

  /** `Array.Copy(src, dst, src.Length)` into a longer array. */
  method CopyPrefix<T>(src: array<T>, dst: array<T>)
    requires src.Length < dst.Length
    modifies dst
    ensures dst[..src.Length] == src[..]
    ensures dst[src.Length..] == old(dst[src.Length..])
  {
    for i := 0 to src.Length
      invariant dst[..i] == src[..i]
      invariant dst[src.Length..] == old(dst[src.Length..])
    {
      dst[i] := src[i];
    }
  }

  // ---------------------------------------------------------------------
  // ItemPool<T>

  /** `DEFAULT_MAX_SIZE` of `ItemPool`. */
  const MaxItems := 128

  /** What `RecycleItem(item)` does to the stack: `null` (None) is ignored,
      and an item is pushed only while fewer than 128 are held. */
  function RecycledItems<T>(s: seq<T>, item: Option<T>): (r: seq<T>)
    ensures item.None? || MaxItems <= |s| ==> r == s
    ensures item.Some? && |s| < MaxItems ==> r == s + [item.value]
    ensures |s| <= MaxItems ==> |r| <= MaxItems
  {
    if item.Some? && |s| < MaxItems then s + [item.value] else s
  }

  /** What `AlocItem()` does: pop the top of the stack, or hand out `newItem`
      (the object `new T()` builds) when the stack is empty. */
  function AlocatedItem<T>(s: seq<T>, newItem: T): (r: (T, seq<T>))
    ensures |s| == 0 ==> r == (newItem, s)
    ensures |s| > 0 ==> r.1 + [r.0] == s
  {
    if |s| > 0 then (s[|s| - 1], s[..|s| - 1]) else (newItem, s)
  }

  /** An item recycled into a stack with room is the next one allocated, and
      the stack is back where it was. */
  lemma RecycleThenAlocItem<T>(s: seq<T>, item: T, newItem: T)
    requires |s| < MaxItems
    ensures AlocatedItem(RecycledItems(s, Some(item)), newItem) == (item, s)
  {
    assert (s + [item])[..|s|] == s;
  }

  /** `ItemPool<T>`: `m_itemPool`, the top of the stack last. */
  class ItemPool<T> {
    var items: seq<T>

    predicate Valid()
      reads this
    {
      |items| <= MaxItems
    }

    constructor ()
      ensures items == [] && Valid()
    {
      items := [];
    }

    /** `AlocItem()`. */
    method AlocItem(newItem: T) returns (t: T)
      requires Valid()
      modifies this
      ensures Valid()
      ensures (t, items) == AlocatedItem(old(items), newItem)
    {
      if |items| > 0 {
        t := items[|items| - 1];
        items := items[..|items| - 1];
        return;
      }
      t := newItem;
    }

    /** `RecycleItem(item)`, with `None` for a null item. */
    method RecycleItem(item: Option<T>)
      requires Valid()
      modifies this
      ensures Valid()
      ensures items == RecycledItems(old(items), item)
    {
      if item.None? {
        return;
      }
      if |items| < MaxItems {
        items := items + [item.value];
      }
    }
  }

  // ---------------------------------------------------------------------
  // TMP_LinkInfo

  /** `TMP_LinkInfo`; `hasTextComponent` says whether `textComponent` is set. */
  class LinkInfo {
    var hasTextComponent: bool
    var hashCode: int
    var linkIdFirstCharacterIndex: int
    var linkIdLength: int
    var linkTextfirstCharacterIndex: int
    var linkTextLength: int
    var linkID: array?<char>

    /** The default value of the struct. */
    constructor ()
      ensures !hasTextComponent && hashCode == 0 && linkIdFirstCharacterIndex == 0 && linkIdLength == 0
      ensures linkTextfirstCharacterIndex == 0 && linkTextLength == 0 && linkID == null
    {
      hasTextComponent := false;
      hashCode := 0;
      linkIdFirstCharacterIndex := 0;
      linkIdLength := 0;
      linkTextfirstCharacterIndex := 0;
      linkTextLength := 0;
      linkID := null;
    }

    /** `Reset()`: every field back to its default. */
    method Reset()
      modifies this
      ensures !hasTextComponent && hashCode == 0 && linkIdFirstCharacterIndex == 0 && linkIdLength == 0
      ensures linkTextfirstCharacterIndex == 0 && linkTextLength == 0 && linkID == null
    {
      hasTextComponent := false;
      hashCode := 0;
      linkIdFirstCharacterIndex := 0;
      linkIdLength := 0;
      linkTextfirstCharacterIndex := 0;
      linkTextLength := 0;
      linkID := null;
    }

    /** `GetLinkID()`: empty without a text component, else the first
        `linkIdLength` characters of the buffer (`new string(linkID, 0,
        linkIdLength)`, which throws when they are not there). */
    function GetLinkID(): (s: seq<char>)
      requires hasTextComponent ==> linkID != null && 0 <= linkIdLength <= linkID.Length
      reads this, linkID
      ensures !hasTextComponent ==> s == []
      ensures hasTextComponent ==> |s| == linkIdLength && s == linkID[..linkIdLength]
    {
      if !hasTextComponent then [] else linkID[..linkIdLength]
    }

    /** `SetLinkID(text, startIndex, length)`: a new buffer only when there is
        none or it is too short, then `length` characters copied from
        `text[startIndex..]`. `text` may be the buffer itself. A negative
        `length` copies nothing, but allocating `new char[length]` throws;
        reading outside `text` throws. */
    method SetLinkID(text: array<char>, startIndex: int, length: int)
      requires length < 0 ==> linkID != null
      requires length > 0 ==> 0 <= startIndex && startIndex + length <= text.Length
      modifies this, linkID
      ensures linkID != null && length <= linkID.Length
      ensures old(linkID) == null || old(linkID).Length < length ==> fresh(linkID) && linkID.Length == length
      ensures old(linkID) != null && length <= old(linkID).Length ==>
                linkID == old(linkID) && forall i :: 0 <= i < linkID.Length && length <= i ==> linkID[i] == old(linkID[i])
      ensures forall i :: 0 <= i < length ==> linkID[i] == old(text[startIndex + i])
      ensures hasTextComponent == old(hasTextComponent) && hashCode == old(hashCode)
      ensures linkIdFirstCharacterIndex == old(linkIdFirstCharacterIndex) && linkIdLength == old(linkIdLength)
      ensures linkTextfirstCharacterIndex == old(linkTextfirstCharacterIndex)
      ensures linkTextLength == old(linkTextLength)
      ensures old(linkID) != null && linkID != old(linkID) ==> old(linkID)[..] == old(linkID[..])
      ensures hasTextComponent && linkIdLength == length && 0 < length ==>
                GetLinkID() == old(text[startIndex..startIndex + length])
    {
      ghost var reused := !(linkID == null || linkID.Length < length);
      if linkID == null || linkID.Length < length {
        linkID := new char[length];
      }
      var buffer := linkID;
      var i := 0;
      while i < length
        invariant 0 <= i <= (if length < 0 then 0 else length) && length <= buffer.Length
        invariant forall k :: 0 <= k < i ==> buffer[k] == old(text[startIndex + k])
        invariant forall k :: i <= k < text.Length ==> text[k] == old(text[k])
        invariant reused ==> buffer == old(linkID) && forall k :: 0 <= k < buffer.Length && length <= k ==> buffer[k] == old(buffer[k])
        modifies buffer
      {
        buffer[i] := text[startIndex + i];
        i := i + 1;
      }
      assert 0 < length ==> buffer[..length] == old(text[startIndex..startIndex + length]);
    }
  }
}
