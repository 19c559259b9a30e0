// The shape both parameter-map codecs of trsfile/parametermap.py share: a
// u16 entry count, then the entries one after the other, each read with
// `result[name] = value`. Stated once for any kind of value.
module EntryStreams {
  import opened PyErrors
  import opened PyValues
  import opened Utils
  import opened OrderedDicts

  /** A map entry as it is read: the name and its value. */
  type Item<V> = (seq<byte>, V)

  /** Something that reads one entry at a position of a stream. */
  type ItemReader<V> = Cursor -> Result<(Cursor, Item<V>)>

  /** The loop of `deserialize`: n entries read one after the other with read, each stored with `result[name] = value`. */
  function ReadEntries<V>(read: ItemReader<V>, c: Cursor, n: nat, acc: ODict<seq<byte>, V>): (r: Result<(Cursor, ODict<seq<byte>, V>)>)
    decreases n
  {
    if n == 0 then Ok((c, acc))
    else
      var (c1, e) :- read(c);
      ReadEntries(read, c1, n - 1, Set(acc, e.0, e.1))
  }

  lemma ReadEntriesStep<V>(read: ItemReader<V>, c: Cursor, n: nat, acc: ODict<seq<byte>, V>, c1: Cursor, e: Item<V>)
    requires read(c) == Ok((c1, e))
    ensures ReadEntries(read, c, n + 1, acc) == ReadEntries(read, c1, n, Set(acc, e.0, e.1))
  {
  }

  /** The same step, counted down from n. */
  lemma ReadEntriesNext<V>(read: ItemReader<V>, c: Cursor, n: nat, acc: ODict<seq<byte>, V>, c1: Cursor, e: Item<V>)
    requires n > 0 && read(c) == Ok((c1, e))
    ensures ReadEntries(read, c, n, acc) == ReadEntries(read, c1, n - 1, Set(acc, e.0, e.1))
  {
  }

  /** An entry that cannot be read stops the loop with its error. */
  lemma ReadEntriesFails<V>(read: ItemReader<V>, c: Cursor, n: nat, acc: ODict<seq<byte>, V>, err: Error)
    requires n > 0 && read(c) == Err(err)
    ensures ReadEntries(read, c, n, acc) == Err(err)
  {
  }

  /** Storing keeps the keys distinct. */
  lemma {:induction false} ReadEntriesDistinct<V>(read: ItemReader<V>, c: Cursor, n: nat, acc: ODict<seq<byte>, V>)
    requires Distinct(acc) && ReadEntries(read, c, n, acc).Ok?
    ensures Distinct(ReadEntries(read, c, n, acc).value.1)
    decreases n
  {
    if n > 0 {
      var r := read(c);
      SetKeepsDistinct(acc, r.value.1.0, r.value.1.1);
      ReadEntriesDistinct(read, r.value.0, n - 1, Set(acc, r.value.1.0, r.value.1.1));
    }
  }

  /** An entry whose serialized form b the reader reads back wherever b sits in a buffer. */
  ghost predicate EntryAt<V>(read: ItemReader<V>, e: Item<V>, b: seq<byte>)
  {
    forall data: seq<byte>, pos: nat {:trigger read(Cursor(data, pos))} ::
      pos + |b| <= |data| && data[pos..pos + |b|] == b ==> read(Cursor(data, pos)) == Ok((Cursor(data, pos + |b|), e))
  }

  /** The reader reads each entry back from its chunk, wherever that chunk sits. */
  ghost predicate AllAt<V>(read: ItemReader<V>, es: ODict<seq<byte>, V>, bs: seq<seq<byte>>)
  {
    |bs| == |es| && forall k :: 0 <= k < |es| ==> EntryAt(read, es[k], bs[k])
  }

  /** Where the chunks sit, the i-th chunk sits right after the ones before it. */
  lemma ChunkAt(bs: seq<seq<byte>>, data: seq<byte>, base: nat, i: nat)
    requires i < |bs| && base + |Flatten(bs)| <= |data| && data[base..base + |Flatten(bs)|] == Flatten(bs)
    ensures |Flatten(bs[..i + 1])| == |Flatten(bs[..i])| + |bs[i]| <= |Flatten(bs)|
    ensures var pos := base + |Flatten(bs[..i])|; data[pos..pos + |bs[i]|] == bs[i]
  {
    FlattenPrefix(bs, i + 1);
    var before := Flatten(bs[..i]);
    assert bs[..i + 1][..i] == bs[..i];
    assert Flatten(bs[..i + 1]) == before + bs[i];
    SubSegment(data, base, Flatten(bs), |before|, |before| + |bs[i]|);
    assert Flatten(bs)[|before|..|before| + |bs[i]|] == bs[i] by {
      SubSegment(Flatten(bs), 0, Flatten(bs[..i + 1]), |before|, |before| + |bs[i]|);
    }
  }

  /** Cursors cs[0], cs[1], ... such that the reader reads es[k] at cs[k] and stops at cs[k + 1]. */
  ghost predicate Chain<V>(read: ItemReader<V>, es: ODict<seq<byte>, V>, cs: seq<Cursor>)
  {
    |cs| == |es| + 1 && forall k :: 0 <= k < |es| ==> read(cs[k]) == Ok((cs[k + 1], es[k]))
  }

  /** Storing the i-th of distinct entries after the ones before it appends it. */
  lemma SetAppends<V>(es: ODict<seq<byte>, V>, i: nat)
    requires Distinct(es) && i < |es|
    ensures Set(es[..i], es[i].0, es[i].1) == es[..i + 1]
  {
    assert !HasKey(es[..i], es[i].0) by {
      assert forall a :: 0 <= a < i ==> es[a].0 != es[i].0;
    }
  }

  /** Reading the entries from the i-th cursor of a chain completes the first i entries to all of them. */
  lemma {:induction false} ChainRead<V>(read: ItemReader<V>, es: ODict<seq<byte>, V>, cs: seq<Cursor>, i: nat)
    requires Distinct(es) && Chain(read, es, cs) && i <= |es|
    ensures ReadEntries(read, cs[i], |es| - i, es[..i]) == Ok((cs[|es|], es))
    decreases |es| - i
  {
    if i == |es| {
      assert es[..i] == es;
    } else {
      ReadEntriesStep(read, cs[i], |es| - (i + 1), es[..i], cs[i + 1], es[i]);
      SetAppends(es, i);
      ChainRead(read, es, cs, i + 1);
    }
  }

  /** The cursors at the chunk boundaries form a chain. */
  lemma ChunksChain<V>(read: ItemReader<V>, es: ODict<seq<byte>, V>, bs: seq<seq<byte>>, data: seq<byte>, base: nat) returns (cs: seq<Cursor>)
    requires AllAt(read, es, bs)
    requires base + |Flatten(bs)| <= |data| && data[base..base + |Flatten(bs)|] == Flatten(bs)
    ensures Chain(read, es, cs) && cs[0] == Cursor(data, base) && cs[|es|] == Cursor(data, base + |Flatten(bs)|)
  {
    cs := seq(|es| + 1, k requires 0 <= k <= |es| => Cursor(data, base + |Flatten(bs[..k])|));
    forall k | 0 <= k < |es|
      ensures read(cs[k]) == Ok((cs[k + 1], es[k]))
    {
      ChunkRead(read, es, bs, data, base, k);
      assert cs[k] == Cursor(data, base + |Flatten(bs[..k])|) && cs[k + 1] == Cursor(data, base + |Flatten(bs[..k + 1])|);
    }
    assert bs[..0] == [] && bs[..|es|] == bs;
  }

  /** The reader reads the k-th entry from its chunk and stops where the next chunk starts. */
  lemma ChunkRead<V>(read: ItemReader<V>, es: ODict<seq<byte>, V>, bs: seq<seq<byte>>, data: seq<byte>, base: nat, k: nat)
    requires AllAt(read, es, bs) && k < |es|
    requires base + |Flatten(bs)| <= |data| && data[base..base + |Flatten(bs)|] == Flatten(bs)
    ensures read(Cursor(data, base + |Flatten(bs[..k])|)) == Ok((Cursor(data, base + |Flatten(bs[..k + 1])|), es[k]))
  {
    ChunkAt(bs, data, base, k);
    assert EntryAt(read, es[k], bs[k]);
  }

  /** A reader that reads each entry back from its chunk reads all of distinct entries back from the chunks one after the other. */
  lemma EntriesFromChunks<V>(read: ItemReader<V>, es: ODict<seq<byte>, V>, bs: seq<seq<byte>>, data: seq<byte>, base: nat)
    requires Distinct(es) && AllAt(read, es, bs)
    requires base + |Flatten(bs)| <= |data| && data[base..base + |Flatten(bs)|] == Flatten(bs)
    ensures ReadEntries(read, Cursor(data, base), |es|, []) == Ok((Cursor(data, base + |Flatten(bs)|), es))
  {
    var cs := ChunksChain(read, es, bs, data, base);
    ChainRead(read, es, cs, 0);
    assert es[..0] == [];
  }
}
