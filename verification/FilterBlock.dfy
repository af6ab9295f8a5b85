/** The filter block of a table: one filter for every 2 KB of block offsets, and a reader that finds the right one. */
module FilterBlock {
  import opened Wrappers
  import opened Keys
  import opened Coding
  import opened KeyEncoding
  import opened BlockFormat
  import opened BlockStreams
  import opened Bloom

  const FILTER_BASE_LG: byte := 11
  const FILTER_BASE: nat := 2048 // 1 << kFilterBaseLg

  /** The keys of a list end to end, as keys_ holds them. */
  function JoinedKeys(keys: seq<Bytes>): Bytes {
    if keys == [] then [] else JoinedKeys(keys[..|keys| - 1]) + keys[|keys| - 1]
  }

  /** Where each key starts, as start_ holds them. */
  function Starts(keys: seq<Bytes>): (starts: seq<nat>)
    ensures |starts| == |keys|
  {
    if keys == [] then [] else Starts(keys[..|keys| - 1]) + [|JoinedKeys(keys[..|keys| - 1])|]
  }

  lemma {:induction false} KeyFromParts(keys: seq<Bytes>, i: nat, joined: Bytes, starts: seq<nat>)
    requires i < |keys| && joined == JoinedKeys(keys) && starts == Starts(keys) + [|joined|]
    ensures starts[i] <= starts[i + 1] <= |joined| && joined[starts[i]..starts[i + 1]] == keys[i]
    decreases |keys|
  {
    var front := keys[..|keys| - 1];
    if i < |keys| - 1 {
      KeyFromParts(front, i, JoinedKeys(front), Starts(front) + [|JoinedKeys(front)|]);
    }
  }

  /** A key of the block at an offset: what AddKey was told, with the index of the filter it goes to. */
  datatype Added = Added(index: nat, key: Bytes)

  /** Where filter i ends in the filters' bytes. */
  function Limit(offsets: seq<nat>, size: nat, i: nat): nat
    requires i < |offsets|
  {
    if i + 1 < |offsets| then offsets[i + 1] else size
  }

  /** The finished filters admit the keys added for them. */
  ghost predicate Admits(hash: Hash, filters: Bytes, offsets: seq<nat>, added: set<Added>) {
    && (forall i :: 0 <= i < |offsets| ==> offsets[i] <= Limit(offsets, |filters|, i) <= |filters|)
    && forall a :: a in added && a.index < |offsets| ==>
         MayMatch(hash, a.key, filters[offsets[a.index]..Limit(offsets, |filters|, a.index)])
  }

  /** One more filter, holding the pending keys; empty when there are none. */
  lemma NextFilter(hash: Hash, before: Bytes, now: Bytes, offsets: seq<nat>, added: set<Added>, pending: seq<Bytes>)
    requires Admits(hash, before, offsets, added) && before <= now
    requires forall a :: a in added ==> a.index < |offsets| || (a.index == |offsets| && a.key in pending)
    requires forall key :: key in pending ==> MayMatch(hash, key, now[|before|..])
    ensures Admits(hash, now, offsets + [|before|], added)
    ensures forall a :: a in added ==> a.index < |offsets| + 1
  {
    hide MayMatch;
    var offsets' := offsets + [|before|];
    forall i | 0 <= i < |offsets|
      ensures offsets'[i] == offsets[i] && Limit(offsets', |now|, i) == Limit(offsets, |before|, i)
      ensures now[offsets[i]..Limit(offsets, |before|, i)] == before[offsets[i]..Limit(offsets, |before|, i)]
    {
      assert now == before + now[|before|..];
    }
    forall a | a in added && a.index < |offsets'|
      ensures MayMatch(hash, a.key, now[offsets'[a.index]..Limit(offsets', |now|, a.index)])
    {
      if a.index == |offsets| { assert now[|before|..|now|] == now[|before|..]; }
    }
  }

  // ----- the reader -----

  function Quotient(n: nat, d: nat): nat
    requires d > 0
  {
    n / d
  }

  function ShiftRight(n: nat, k: nat): nat { Quotient(n, Power2(k)) }

  /** What a reader over contents answers for a key of the block at blockOffset; damage counts as a match. */
  ghost predicate FilterMayMatch(hash: Hash, contents: Bytes, blockOffset: nat, key: Bytes) {
    var n := |contents|;
    n >= 5 ==>
      var last := DecodeFixed32(contents[n - 5..]);
      last <= n - 5 ==>
        var index := ShiftRight(blockOffset, contents[n - 1] as nat);
        index < (n - 5 - last) / 4 ==>
          var s, l := DecodeFixed32(contents[last + 4 * index..]), DecodeFixed32(contents[last + 4 * index + 4..]);
          if s <= l <= last then MayMatch(hash, key, contents[s..l]) else s != l
  }

  class FilterBlockReader {
    const hash: Hash
    const contents: Bytes
    const offset: nat // of the offset array
    const num: nat
    const baseLg: nat

    constructor (hash: Hash, contents: Bytes)
      ensures Wired() && this.hash == hash && this.contents == contents
    {
      this.hash, this.contents := hash, contents;
      offset, num, baseLg := 0, 0, 0;
      var n := |contents|;
      if n >= 5 {
        baseLg := contents[n - 1] as nat;
        var lastWord := DecodeFixed32(contents[n - 5..]);
        if lastWord <= n - 5 {
          offset, num := lastWord, (n - 5 - lastWord) / 4;
        }
      }
    }

    ghost predicate Wired() {
      var n := |contents|;
      if n < 5 || DecodeFixed32(contents[n - 5..]) > n - 5 then num == 0
      else
        && baseLg == contents[n - 1] as nat && offset == DecodeFixed32(contents[n - 5..])
        && num == (n - 5 - offset) / 4
    }

    method KeyMayMatch(blockOffset: nat, key: Bytes) returns (admitted: bool)
      requires Wired()
      ensures admitted <==> FilterMayMatch(hash, contents, blockOffset, key)
    {
      hide DecodeFixed32, MayMatch, ShiftRight;
      var index := ShiftRight(blockOffset, baseLg);
      if index < num {
        var s, l := DecodeFixed32(contents[offset + index * 4..]), DecodeFixed32(contents[offset + index * 4 + 4..]);
        if s <= l && l <= offset {
          admitted := Bloom.KeyMayMatch(hash, key, contents[s..l]);
          return;
        } else if s == l {
          return false;
        }
      }
      admitted := true;
    }
  }

  /** The bytes of a finished filter block. */
  function BlockOf(filters: Bytes, offsets: seq<nat>): Bytes {
    filters + (Words(offsets + [|filters|]) + [FILTER_BASE_LG])
  }

  /** On a finished block the reader finds the filter of the key's block. */
  lemma ReaderFindsFilter(hash: Hash, filters: Bytes, offsets: seq<nat>, added: set<Added>, a: Added, blockOffset: nat)
    requires Admits(hash, filters, offsets, added) && a in added && a.index < |offsets|
      && blockOffset / FILTER_BASE == a.index
    requires |BlockOf(filters, offsets)| <= LIMIT32
    ensures FilterMayMatch(hash, BlockOf(filters, offsets), blockOffset, a.key)
  {
    hide MayMatch, DecodeFixed32, Words, BlockOf, Admits, ShiftRight;
    var contents, i := BlockOf(filters, offsets), a.index;
    var s, l := offsets[i], Limit(offsets, |filters|, i);
    TrailerReads(hash, filters, offsets, added);
    EntryReads(hash, filters, offsets, added, a);
    ElevenBits();
    assert ShiftRight(blockOffset, 11) == i by { ShiftIs(blockOffset, 11); }
  }

  lemma ShiftIs(n: nat, k: nat)
    ensures ShiftRight(n, k) == n / Power2(k)
  {
  }

  /** The last five bytes say where the offset array starts. */
  lemma TrailerReads(hash: Hash, filters: Bytes, offsets: seq<nat>, added: set<Added>)
    requires Admits(hash, filters, offsets, added) && |BlockOf(filters, offsets)| <= LIMIT32
    ensures var contents := BlockOf(filters, offsets);
            && |contents| == |filters| + 4 * |offsets| + 5 && contents[|contents| - 1] == FILTER_BASE_LG
            && DecodeFixed32(contents[|contents| - 5..]) == |filters|
  {
    hide MayMatch, DecodeFixed32, Words;
    BlockWord(filters, offsets, |offsets|);
  }

  /** Filter a.index as the reader cuts it out. */
  lemma EntryReads(hash: Hash, filters: Bytes, offsets: seq<nat>, added: set<Added>, a: Added)
    requires Admits(hash, filters, offsets, added) && a in added && a.index < |offsets|
    requires |BlockOf(filters, offsets)| <= LIMIT32
    ensures var contents, s, l := BlockOf(filters, offsets), offsets[a.index], Limit(offsets, |filters|, a.index);
            && |contents| == |filters| + 4 * |offsets| + 5 && s <= l <= |filters|
            && DecodeFixed32(contents[|filters| + 4 * a.index..]) == s
            && DecodeFixed32(contents[|filters| + 4 * a.index + 4..]) == l
            && MayMatch(hash, a.key, contents[s..l])
  {
    hide MayMatch, DecodeFixed32, Words;
    var contents, i := BlockOf(filters, offsets), a.index;
    BlockWord(filters, offsets, i);
    BlockWord(filters, offsets, i + 1);
    assert |filters| + 4 * (i + 1) == |filters| + 4 * i + 4;
    assert contents[offsets[i]..Limit(offsets, |filters|, i)] == filters[offsets[i]..Limit(offsets, |filters|, i)];
  }

  lemma BlockWord(filters: Bytes, offsets: seq<nat>, j: nat)
    requires |BlockOf(filters, offsets)| <= LIMIT32 && j <= |offsets|
    requires forall i :: 0 <= i < |offsets| ==> offsets[i] <= |filters|
    ensures DecodeFixed32(BlockOf(filters, offsets)[|filters| + 4 * j..]) == (offsets + [|filters|])[j]
  {
    hide DecodeFixed32, Words;
    var ws := offsets + [|filters|];
    WordAt(ws, j, [FILTER_BASE_LG]);
    assert BlockOf(filters, offsets)[|filters| + 4 * j..] == (Words(ws) + [FILTER_BASE_LG])[4 * j..];
    assert ws[j] < LIMIT32;
  }

  lemma ElevenBits()
    ensures Power2(11) == FILTER_BASE
  {
    EightBits();
    assert Power2(11) == 2 * (2 * (2 * Power2(8)));
  }

  // ----- the builder -----

  class FilterBlockBuilder {
    const hash: Hash
    const bitsPerKey: nat
    var keys: Bytes
    var start: seq<nat>
    var result: Bytes
    var filterOffsets: seq<nat>
    ghost var pending: seq<Bytes>
    ghost var added: set<Added>

    constructor (hash: Hash, bitsPerKey: nat)
      ensures Valid() && added == {} && filterOffsets == [] && this.hash == hash
    {
      this.hash, this.bitsPerKey := hash, bitsPerKey;
      keys, start, result, filterOffsets, pending, added := [], [], [], [], [], {};
    }

    ghost predicate Valid()
      reads this
    {
      && keys == JoinedKeys(pending) && start == Starts(pending)
      && Admits(hash, result, filterOffsets, added)
      && forall a :: a in added ==> a.index < |filterOffsets| || (a.index == |filterOffsets| && a.key in pending)
    }

    /** Generates filters up to the one for blockOffset. */
    method StartBlock(blockOffset: nat)
      requires Valid() && |filterOffsets| <= blockOffset / FILTER_BASE
      modifies `keys, `start, `result, `filterOffsets, `pending
      ensures Valid() && |filterOffsets| == blockOffset / FILTER_BASE
    {
      hide Valid;
      var filterIndex := blockOffset / FILTER_BASE;
      while filterIndex > |filterOffsets|
        invariant Valid() && |filterOffsets| <= filterIndex
      {
        GenerateFilter();
      }
    }

    method AddKey(key: Bytes)
      requires Valid()
      modifies `keys, `start, `pending, `added
      ensures Valid() && added == old(added) + {Added(|filterOffsets|, key)}
    {
      start := start + [|keys|];
      keys := keys + key;
      pending, added := pending + [key], added + {Added(|filterOffsets|, key)};
      assert pending[..|pending| - 1] == old(pending);
    }

    method GenerateFilter()
      requires Valid()
      modifies `keys, `start, `result, `filterOffsets, `pending
      ensures Valid() && |filterOffsets| == old(|filterOffsets|) + 1 && pending == []
    {
      hide JoinedKeys, Starts, MayMatch;
      ghost var before := result;
      if start == [] {
        NextFilter(hash, before, result, filterOffsets, added, pending);
        filterOffsets := filterOffsets + [|result|];
        return;
      }
      var tmpKeys := TakeKeys();
      filterOffsets := filterOffsets + [|result|];
      result := CreateFilter(hash, bitsPerKey, tmpKeys, result);
      forall key | key in tmpKeys ensures MayMatch(hash, key, result[|before|..]) {
        FilterAdmits(hash, tmpKeys, ProbeCount(bitsPerKey), result[|before|..], key);
      }
      NextFilter(hash, before, result, old(filterOffsets), added, old(pending));
      keys, start, pending := [], [], [];
      NoKeys();
    }

    lemma NoKeys()
      ensures JoinedKeys([]) == [] && Starts([]) == []
    {
    }

    /** The list of keys, from the flattened structure. */
    method TakeKeys() returns (tmpKeys: seq<Bytes>)
      requires keys == JoinedKeys(pending) && start == Starts(pending)
      ensures tmpKeys == pending
    {
      var bounds := start + [|keys|];
      tmpKeys := [];
      for i := 0 to |start|
        invariant tmpKeys == pending[..i]
      {
        KeyFromParts(pending, i, keys, bounds);
        tmpKeys := tmpKeys + [keys[bounds[i]..bounds[i + 1]]];
      }
    }

    /** The filters, the array of their offsets, where that array starts, and the base. */
    method Finish() returns (block: Bytes)
      requires Valid()
      modifies `keys, `start, `result, `filterOffsets, `pending
      ensures |block| <= LIMIT32 ==> forall a, blockOffset :: a in added && blockOffset / FILTER_BASE == a.index ==>
                FilterMayMatch(hash, block, blockOffset, a.key)
    {
      hide Words, FilterMayMatch, JoinedKeys, Starts, MayMatch;
      if start != [] {
        GenerateFilter();
      }
      ghost var filters, offsets := result, filterOffsets;
      AppendOffsets();
      block := result;
      assert block == BlockOf(filters, offsets);
      if |block| <= LIMIT32 {
        forall a, blockOffset | a in added && blockOffset / FILTER_BASE == a.index
          ensures FilterMayMatch(hash, block, blockOffset, a.key)
        {
          ReaderFindsFilter(hash, filters, offsets, added, a, blockOffset);
        }
      }
    }

    method AppendOffsets()
      modifies `result
      ensures result == BlockOf(old(result), filterOffsets)
    {
      hide Words;
      var arrayOffset := |result|;
      for i := 0 to |filterOffsets|
        invariant result == old(result) + Words(filterOffsets[..i])
      {
        OneMoreWord(filterOffsets[..i], filterOffsets[i]);
        assert filterOffsets[..i + 1] == filterOffsets[..i] + [filterOffsets[i]];
        result := result + EncodeFixed32(filterOffsets[i] % LIMIT32);
      }
      assert filterOffsets[..|filterOffsets|] == filterOffsets;
      OneMoreWord(filterOffsets, arrayOffset);
      result := result + EncodeFixed32(arrayOffset % LIMIT32);
      result := result + [FILTER_BASE_LG];
    }
  }

  lemma OneMoreWord(ws: seq<nat>, w: nat)
    ensures Words(ws + [w]) == Words(ws) + EncodeFixed32(w % LIMIT32)
  {
    assert (ws + [w])[..|ws|] == ws;
  }
}
