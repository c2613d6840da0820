/** The layout of the binary index file: a fixed header, the document
    metadata, the posting lists back to back, then the term records, with the
    dictionary offset patched into the first four bytes. */
module IndexFormat {
  import opened Bytes
  import opened Postings

  /** `DocumentMetaData`: a fixed-size record, kept as its raw bytes. */
  datatype DocumentMetaData = DocumentMetaData(record: seq<byte>)

  /** An `ICompressor`: the id it reports and how it encodes a posting list. */
  datatype Compressor = Compressor(id: int32, encode: seq<Entry> -> seq<byte>)

  /** Dictionary offset (4), terms number (8), compressor id (4), document number (4). */
  const HEADER_SIZE: nat := 20

  function Header(dictionaryOffset: int, termsNumber: int, compressorId: int32, documentNumber: int): (h: seq<byte>)
    ensures |h| == HEADER_SIZE
  {
    U32(dictionaryOffset) + U64(termsNumber) + I32(compressorId) + U32(documentNumber)
  }

  /** The finalized document table written as one block: the records one
      after another. */
  function MetaDataBlock(table: seq<DocumentMetaData>): seq<byte>
  {
    if table == [] then [] else MetaDataBlock(table[..|table| - 1]) + table[|table| - 1].record
  }

  /** Where the first posting list starts. */
  function PostingsStart(table: seq<DocumentMetaData>): nat
  {
    HEADER_SIZE + |MetaDataBlock(table)|
  }

  /** No key appears twice: each key is new to the keys before it. */
  predicate Distinct(keys: seq<string>)
    decreases |keys|
  {
    keys == [] || (keys[|keys| - 1] !in keys[..|keys| - 1] && Distinct(keys[..|keys| - 1]))
  }

  lemma {:induction false} DistinctPrefix(keys: seq<string>, k: nat)
    requires Distinct(keys) && k <= |keys|
    ensures Distinct(keys[..k])
    decreases |keys|
  {
    if k < |keys| {
      var n := |keys| - 1;
      assert keys[..n][..k] == keys[..k];
      DistinctPrefix(keys[..n], k);
    } else {
      assert keys[..k] == keys;
    }
  }

  /** In distinct keys, no key occurs before its own position. */
  lemma DistinctAt(keys: seq<string>, i: nat)
    requires Distinct(keys) && i < |keys|
    ensures keys[i] !in keys[..i]
  {
    DistinctPrefix(keys, i + 1);
    assert keys[..i + 1][..i] == keys[..i];
  }

  /** Two positions of distinct keys hold different keys. */
  lemma DistinctKeys(keys: seq<string>, i: nat, j: nat)
    requires Distinct(keys) && i < j < |keys|
    ensures keys[i] != keys[j]
  {
    DistinctAt(keys, j);
    assert keys[i] == keys[..j][i];
  }

  /** `keys` lists every term of `dict` once: one iteration of the dictionary. */
  predicate IsKeyOrder(keys: seq<string>, dict: map<string, Term>)
  {
    && Distinct(keys)
    && (forall w :: w in dict ==> w in keys)
    && (forall i :: 0 <= i < |keys| ==> keys[i] in dict)
  }

  /** Every key names a term of `dict` whose posting list is still in memory. */
  predicate PendingKeys(dict: map<string, Term>, keys: seq<string>)
  {
    forall i :: 0 <= i < |keys| ==> keys[i] in dict && dict[keys[i]].postingList.Pending?
  }

  /** The compressor's encoding of the posting list of `w`. */
  function Encoding(c: Compressor, dict: map<string, Term>, w: string): seq<byte>
  {
    c.encode(EntriesOf(dict, w))
  }

  /** The encoded posting lists of `keys`, back to back. */
  function PostingLists(c: Compressor, dict: map<string, Term>, keys: seq<string>): seq<byte>
  {
    if keys == [] then []
    else PostingLists(c, dict, keys[..|keys| - 1]) + Encoding(c, dict, keys[|keys| - 1])
  }

  /** The file position of the `k`-th posting list. */
  function PostingOffset(start: nat, c: Compressor, dict: map<string, Term>, keys: seq<string>, k: nat): nat
    requires k <= |keys|
  {
    start + |PostingLists(c, dict, keys[..k])|
  }

  /** The dictionary once the posting lists of `keys` are written from
      `start` on: each such term's slot holds its list's offset, truncated to
      an `unsigned int`; nothing else changes. */
  function WrittenTerms(dict: map<string, Term>, keys: seq<string>, start: nat, c: Compressor): (r: map<string, Term>)
    ensures r.Keys == dict.Keys
    decreases |keys|
  {
    if keys == [] then dict
    else
      var n := |keys| - 1;
      var before := WrittenTerms(dict, keys[..n], start, c);
      if keys[n] in dict then
        before[keys[n] := dict[keys[n]].(postingList := Written(PostingOffset(start, c, dict, keys, n) % TWO_TO_32))]
      else before
  }

  /** The record (`operator<<`) of the term for `w`. */
  function RecordOf(record: Term -> seq<byte>, dict: map<string, Term>, w: string): seq<byte>
  {
    if w in dict then record(dict[w]) else []
  }

  /** The term records, in key order. */
  function Records(record: Term -> seq<byte>, dict: map<string, Term>, keys: seq<string>): seq<byte>
  {
    if keys == [] then []
    else Records(record, dict, keys[..|keys| - 1]) + RecordOf(record, dict, keys[|keys| - 1])
  }

  /** The whole file `finalize` leaves behind. */
  function Image(table: seq<DocumentMetaData>, dict: map<string, Term>, keys: seq<string>,
                 c: Compressor, record: Term -> seq<byte>): (image: seq<byte>)
    ensures |image| == PostingsStart(table) + |PostingLists(c, dict, keys)|
                       + |Records(record, WrittenTerms(dict, keys, PostingsStart(table), c), keys)|
  {
    var start := PostingsStart(table);
    var postings := PostingLists(c, dict, keys);
    Layout(Header(start + |postings|, |dict|, c.id, |table|), MetaDataBlock(table), postings,
           Records(record, WrittenTerms(dict, keys, start, c), keys))
  }

  function Layout(header: seq<byte>, metaData: seq<byte>, postings: seq<byte>, records: seq<byte>): seq<byte>
  {
    header + (metaData + postings + records)
  }

  /** The four sections of a layout, cut at the positions `headerEnd`,
      `start` and `end` where they meet. */
  lemma {:induction false} LayoutSections(header: seq<byte>, metaData: seq<byte>, postings: seq<byte>, records: seq<byte>,
                                          headerEnd: nat, start: nat, end: nat)
    requires headerEnd == |header| && start == headerEnd + |metaData| && end == start + |postings|
    ensures var image := Layout(header, metaData, postings, records);
      && |image| == end + |records|
      && image[..headerEnd] == header
      && image[headerEnd..start] == metaData
      && image[start..end] == postings
      && image[end..] == records
  {
    SliceOfFour(header, metaData, postings, records);
  }

  /** A slice of the header is a slice of the file. */
  lemma {:induction false} LayoutHeaderSlice(header: seq<byte>, metaData: seq<byte>, postings: seq<byte>, records: seq<byte>,
                                             i: nat, j: nat)
    requires i <= j <= |header|
    ensures Layout(header, metaData, postings, records)[i..j] == header[i..j]
  {
  }

  /** A piece of the posting lists lies in the file shifted by the header
      and the metadata block. */
  lemma {:induction false} LayoutPostingPiece(header: seq<byte>, metaData: seq<byte>, postings: seq<byte>, records: seq<byte>,
                                              rel: nat, piece: seq<byte>, at: nat)
    requires rel + |piece| <= |postings| && postings[rel..rel + |piece|] == piece
    requires at == |header| + |metaData| + rel
    ensures var image := Layout(header, metaData, postings, records);
      && at + |piece| <= |image|
      && image[at..at + |piece|] == piece
  {
    var image := Layout(header, metaData, postings, records);
    LayoutSections(header, metaData, postings, records, |header|, |header| + |metaData|, |header| + |metaData| + |postings|);
    SliceWithin(image, |header| + |metaData|, postings, rel, |piece|);
  }

  /** Only the slots of the terms of `keys` change. */
  lemma {:induction false} WrittenTermsFrame(dict: map<string, Term>, keys: seq<string>, start: nat, c: Compressor, w: string)
    requires w in dict
    ensures var r := WrittenTerms(dict, keys, start, c);
      && r[w].text == dict[w].text && r[w].documentNumber == dict[w].documentNumber
      && (w !in keys ==> r[w] == dict[w])
    decreases |keys|
  {
    if keys != [] {
      var n := |keys| - 1;
      WrittenTermsFrame(dict, keys[..n], start, c, w);
      assert w !in keys ==> w !in keys[..n] && w != keys[n];
    }
  }

  /** One more posting list written: its encoding follows the earlier ones. */
  lemma {:induction false} PostingListsStep(c: Compressor, dict: map<string, Term>, keys: seq<string>, i: nat)
    requires i < |keys|
    ensures PostingLists(c, dict, keys[..i + 1]) == PostingLists(c, dict, keys[..i]) + Encoding(c, dict, keys[i])
  {
    assert keys[..i + 1][..i] == keys[..i];
  }

  /** The posting lists of a prefix of `keys` begin the posting lists of `keys`. */
  lemma {:induction false} PostingListsPrefix(c: Compressor, dict: map<string, Term>, keys: seq<string>, k: nat)
    requires k <= |keys|
    ensures var p := PostingLists(c, dict, keys[..k]);
      |p| <= |PostingLists(c, dict, keys)| && PostingLists(c, dict, keys)[..|p|] == p
    decreases |keys|
  {
    if k < |keys| {
      var n := |keys| - 1;
      assert keys[..n][..k] == keys[..k];
      PostingListsPrefix(c, dict, keys[..n], k);
    } else {
      assert keys[..k] == keys;
    }
  }

  /** One more term written: its slot takes the offset of its posting list. */
  lemma {:induction false} WrittenTermsStep(dict: map<string, Term>, keys: seq<string>, start: nat, c: Compressor, i: nat)
    requires i < |keys| && keys[i] in dict
    ensures WrittenTerms(dict, keys[..i + 1], start, c)
         == WrittenTerms(dict, keys[..i], start, c)[keys[i] := dict[keys[i]].(postingList := Written(PostingOffset(start, c, dict, keys, i) % TWO_TO_32))]
  {
    var prefix := keys[..i + 1];
    assert prefix[..i] == keys[..i] && prefix[i] == keys[i];
  }

  /** One iteration of the first pass of `finalize`, from the bytes and
      dictionary after `i` posting lists to those after `i + 1`. */
  lemma {:induction false} PostingListStep(dict: map<string, Term>, keys: seq<string>, c: Compressor, i: nat, head: seq<byte>)
    requires PendingKeys(dict, keys) && Distinct(keys) && i < |keys|
    ensures keys[i] in dict && dict[keys[i]].postingList.Pending?
    ensures var before := WrittenTerms(dict, keys[..i], |head|, c);
      keys[i] in before && before[keys[i]] == dict[keys[i]]
    ensures var encoding := c.encode(dict[keys[i]].postingList.entries);
      head + PostingLists(c, dict, keys[..i]) + encoding == head + PostingLists(c, dict, keys[..i + 1])
    ensures var offset := |head + PostingLists(c, dict, keys[..i])|;
      WrittenTerms(dict, keys[..i + 1], |head|, c)
        == WrittenTerms(dict, keys[..i], |head|, c)[keys[i] := dict[keys[i]].(postingList := Written(offset % TWO_TO_32))]
  {
    WrittenTermsFrame(dict, keys[..i], |head|, c, keys[i]);
    DistinctAt(keys, i);
    PostingListsStep(c, dict, keys, i);
    WrittenTermsStep(dict, keys, |head|, c, i);
  }

  /** One more term record written. */
  lemma {:induction false} RecordsStep(record: Term -> seq<byte>, dict: map<string, Term>, keys: seq<string>, i: nat)
    requires i < |keys| && keys[i] in dict
    ensures Records(record, dict, keys[..i + 1]) == Records(record, dict, keys[..i]) + record(dict[keys[i]])
  {
    assert keys[..i + 1][..i] == keys[..i];
  }

  /** The `k`-th term's slot holds the offset of the `k`-th posting list:
      both passes over `keys` agree on which term is which. */
  lemma {:induction false} WrittenTermAt(dict: map<string, Term>, keys: seq<string>, start: nat, c: Compressor, k: nat)
    requires k < |keys| && keys[k] in dict
    requires Distinct(keys)
    ensures WrittenTerms(dict, keys, start, c)[keys[k]]
         == dict[keys[k]].(postingList := Written(PostingOffset(start, c, dict, keys, k) % TWO_TO_32))
    decreases |keys|
  {
    var n := |keys| - 1;
    var prefix := keys[..n];
    if k < n {
      DistinctKeys(keys, k, n);
      assert prefix[k] == keys[k];
      WrittenTermAt(dict, prefix, start, c, k);
      assert prefix[..k] == keys[..k];
    }
  }

  /** After the first pass every term is in its written state. */
  lemma {:induction false} AllTermsWritten(dict: map<string, Term>, keys: seq<string>, start: nat, c: Compressor, w: string)
    requires IsKeyOrder(keys, dict) && w in dict
    ensures WrittenTerms(dict, keys, start, c)[w].postingList.Written?
  {
    var k :| 0 <= k < |keys| && keys[k] == w;
    WrittenTermAt(dict, keys, start, c, k);
  }

  /** Each header field reads back as its value at its width. */
  lemma {:induction false} HeaderFields(dictionaryOffset: int, termsNumber: int, compressorId: int32, documentNumber: int)
    ensures var h := Header(dictionaryOffset, termsNumber, compressorId, documentNumber);
      && FromLittleEndian(h[0..4]) == dictionaryOffset % TWO_TO_32
      && FromLittleEndian(h[4..12]) == termsNumber % TWO_TO_64
      && FromLittleEndianSigned(h[12..16]) == compressorId as int
      && FromLittleEndian(h[16..20]) == documentNumber % TWO_TO_32
  {
    HeaderDictionaryOffset(dictionaryOffset, termsNumber, compressorId, documentNumber);
    HeaderTermsNumber(dictionaryOffset, termsNumber, compressorId, documentNumber);
    HeaderCompressorId(dictionaryOffset, termsNumber, compressorId, documentNumber);
    HeaderDocumentNumber(dictionaryOffset, termsNumber, compressorId, documentNumber);
  }

  lemma {:induction false} HeaderDictionaryOffset(dictionaryOffset: int, termsNumber: int, compressorId: int32, documentNumber: int)
    ensures FromLittleEndian(Header(dictionaryOffset, termsNumber, compressorId, documentNumber)[0..4])
         == dictionaryOffset % TWO_TO_32
  {
    var h := Header(dictionaryOffset, termsNumber, compressorId, documentNumber);
    assert h[0..4] == U32(dictionaryOffset);
    U32RoundTrip(dictionaryOffset);
  }

  lemma {:induction false} HeaderTermsNumber(dictionaryOffset: int, termsNumber: int, compressorId: int32, documentNumber: int)
    ensures FromLittleEndian(Header(dictionaryOffset, termsNumber, compressorId, documentNumber)[4..12])
         == termsNumber % TWO_TO_64
  {
    var h := Header(dictionaryOffset, termsNumber, compressorId, documentNumber);
    assert h[4..12] == U64(termsNumber);
    U64RoundTrip(termsNumber);
  }

  lemma {:induction false} HeaderCompressorId(dictionaryOffset: int, termsNumber: int, compressorId: int32, documentNumber: int)
    ensures FromLittleEndianSigned(Header(dictionaryOffset, termsNumber, compressorId, documentNumber)[12..16])
         == compressorId as int
  {
    var h := Header(dictionaryOffset, termsNumber, compressorId, documentNumber);
    assert h[12..16] == I32(compressorId);
    I32RoundTrip(compressorId);
  }

  lemma {:induction false} HeaderDocumentNumber(dictionaryOffset: int, termsNumber: int, compressorId: int32, documentNumber: int)
    ensures FromLittleEndian(Header(dictionaryOffset, termsNumber, compressorId, documentNumber)[16..20])
         == documentNumber % TWO_TO_32
  {
    var h := Header(dictionaryOffset, termsNumber, compressorId, documentNumber);
    assert h[16..20] == U32(documentNumber);
    U32RoundTrip(documentNumber);
  }

  /** The file as its four sections. */
  lemma {:induction false} ImageSections(table: seq<DocumentMetaData>, dict: map<string, Term>, keys: seq<string>,
                      c: Compressor, record: Term -> seq<byte>)
    ensures var image := Image(table, dict, keys, c, record);
      var start := PostingsStart(table);
      var postings := PostingLists(c, dict, keys);
      && |image| >= start + |postings|
      && image[..HEADER_SIZE] == Header(start + |postings|, |dict|, c.id, |table|)
      && image[HEADER_SIZE..start] == MetaDataBlock(table)
      && image[start..start + |postings|] == postings
      && image[start + |postings|..] == Records(record, WrittenTerms(dict, keys, start, c), keys)
  {
    var start := PostingsStart(table);
    var postings := PostingLists(c, dict, keys);
    var h := Header(start + |postings|, |dict|, c.id, |table|);
    var m := MetaDataBlock(table);
    var r := Records(record, WrittenTerms(dict, keys, start, c), keys);
    LayoutSections(h, m, postings, r, HEADER_SIZE, start, start + |postings|);
  }

  /** The `k`-th term's slot holds the exact offset of its posting list when
      that offset fits in 32 bits. */
  lemma {:induction false} PostingSlot(dict: map<string, Term>, keys: seq<string>, start: nat, c: Compressor, k: nat)
    requires k < |keys| && keys[k] in dict
    requires Distinct(keys)
    requires PostingOffset(start, c, dict, keys, k) < TWO_TO_32
    ensures WrittenTerms(dict, keys, start, c)[keys[k]].postingList == Written(PostingOffset(start, c, dict, keys, k))
  {
    WrittenTermAt(dict, keys, start, c, k);
    FitsU32(PostingOffset(start, c, dict, keys, k));
  }

  /** The `k`-th encoding lies in the posting lists right after the ones before it. */
  lemma {:induction false} EncodingWithin(c: Compressor, dict: map<string, Term>, keys: seq<string>, k: nat)
    requires k < |keys|
    ensures var postings := PostingLists(c, dict, keys);
      var before := |PostingLists(c, dict, keys[..k])|;
      var encoding := Encoding(c, dict, keys[k]);
      && before + |encoding| <= |postings|
      && postings[before..before + |encoding|] == encoding
  {
    var postings := PostingLists(c, dict, keys);
    var before := PostingLists(c, dict, keys[..k]);
    var encoding := Encoding(c, dict, keys[k]);
    PostingListsStep(c, dict, keys, k);
    PostingListsPrefix(c, dict, keys, k + 1);
    assert postings[..|before| + |encoding|] == before + encoding;
    assert postings[|before|..|before| + |encoding|] == (before + encoding)[|before|..];
  }

  /** The `k`-th posting list's encoding lies in the file at its offset. */
  lemma {:induction false} PostingBytes(table: seq<DocumentMetaData>, dict: map<string, Term>, keys: seq<string>,
                     c: Compressor, record: Term -> seq<byte>, k: nat)
    requires k < |keys|
    ensures var image := Image(table, dict, keys, c, record);
      var offset := PostingOffset(PostingsStart(table), c, dict, keys, k);
      var encoding := Encoding(c, dict, keys[k]);
      && offset + |encoding| <= |image|
      && image[offset..offset + |encoding|] == encoding
  {
    var start := PostingsStart(table);
    var postings := PostingLists(c, dict, keys);
    var h := Header(start + |postings|, |dict|, c.id, |table|);
    var m := MetaDataBlock(table);
    var r := Records(record, WrittenTerms(dict, keys, start, c), keys);
    var before := |PostingLists(c, dict, keys[..k])|;
    var encoding := Encoding(c, dict, keys[k]);
    EncodingWithin(c, dict, keys, k);
    LayoutPostingPiece(h, m, postings, r, before, encoding, PostingOffset(start, c, dict, keys, k));
  }

  /** When the file is smaller than 4 GiB the offsets are exact: the `k`-th
      term's slot points at the bytes of its posting list's encoding. */
  lemma {:induction false} ImagePostingList(table: seq<DocumentMetaData>, dict: map<string, Term>, keys: seq<string>,
                         c: Compressor, record: Term -> seq<byte>, k: nat)
    requires PendingKeys(dict, keys) && k < |keys|
    requires Distinct(keys)
    requires |Image(table, dict, keys, c, record)| < TWO_TO_32
    ensures var image := Image(table, dict, keys, c, record);
      var start := PostingsStart(table);
      var offset := PostingOffset(start, c, dict, keys, k);
      var encoding := c.encode(dict[keys[k]].postingList.entries);
      && WrittenTerms(dict, keys, start, c)[keys[k]].postingList == Written(offset)
      && offset + |encoding| <= |image|
      && image[offset..offset + |encoding|] == encoding
  {
    assert keys[k] in dict && dict[keys[k]].postingList.Pending?;
    PostingBytes(table, dict, keys, c, record, k);
    PostingSlot(dict, keys, PostingsStart(table), c, k);
  }

  /** The term records begin at the patched dictionary offset. */
  lemma {:induction false} ImageRecords(table: seq<DocumentMetaData>, dict: map<string, Term>, keys: seq<string>,
                     c: Compressor, record: Term -> seq<byte>)
    requires |Image(table, dict, keys, c, record)| < TWO_TO_32
    ensures var image := Image(table, dict, keys, c, record);
      var offset := FromLittleEndian(image[0..4]);
      offset <= |image| && image[offset..] == Records(record, WrittenTerms(dict, keys, PostingsStart(table), c), keys)
  {
    var start := PostingsStart(table);
    var postings := PostingLists(c, dict, keys);
    var h := Header(start + |postings|, |dict|, c.id, |table|);
    var m := MetaDataBlock(table);
    var r := Records(record, WrittenTerms(dict, keys, start, c), keys);
    var end := start + |postings|;
    var image := Image(table, dict, keys, c, record);
    assert image == Layout(h, m, postings, r);
    HeaderDictionaryOffset(end, |dict|, c.id, |table|);
    FitsU32(end);
    LayoutRecords(h, m, postings, r, end);
    assert FromLittleEndian(image[0..4]) == end;
  }

  /** A header whose first field is the end of the posting lists points at the records. */
  lemma {:induction false} LayoutRecords(header: seq<byte>, metaData: seq<byte>, postings: seq<byte>, records: seq<byte>,
                                         end: nat)
    requires |header| == HEADER_SIZE && end == |header| + |metaData| + |postings|
    requires FromLittleEndian(header[0..4]) == end
    ensures var image := Layout(header, metaData, postings, records);
      FromLittleEndian(image[0..4]) == end && image[end..] == records
  {
    LayoutHeaderSlice(header, metaData, postings, records, 0, 4);
    LayoutSections(header, metaData, postings, records, HEADER_SIZE, HEADER_SIZE + |metaData|, end);
  }

  /** Records of one size make a block of that size per document. */
  lemma {:induction false} MetaDataBlockSize(table: seq<DocumentMetaData>, size: nat)
    requires forall i :: 0 <= i < |table| ==> |table[i].record| == size
    ensures |MetaDataBlock(table)| == |table| * size
  {
    if table != [] {
      var n := |table| - 1;
      var prefix := table[..n];
      assert forall i :: 0 <= i < n ==> prefix[i] == table[i];
      MetaDataBlockSize(prefix, size);
      assert |MetaDataBlock(table)| == n * size + size;
      assert n * size + size == (n + 1) * size;
    }
  }

  /** With fixed-size metadata records, the first posting list starts at
      20 + documentNumber * sizeof(DocumentMetaData). */
  lemma {:induction false} FirstPostingListOffset(table: seq<DocumentMetaData>, dict: map<string, Term>, keys: seq<string>,
                               c: Compressor, size: nat)
    requires |keys| > 0 && keys[0] in dict
    requires Distinct(keys)
    requires forall i :: 0 <= i < |table| ==> |table[i].record| == size
    ensures WrittenTerms(dict, keys, PostingsStart(table), c)[keys[0]].postingList
         == Written((HEADER_SIZE + |table| * size) % TWO_TO_32)
  {
    MetaDataBlockSize(table, size);
    assert keys[..0] == [];
    WrittenTermAt(dict, keys, PostingsStart(table), c, 0);
  }

  /** An empty corpus gives the 20-byte header alone, whose dictionary offset
      points just past the empty metadata block. */
  lemma {:induction false} EmptyCorpusImage(c: Compressor, record: Term -> seq<byte>)
    ensures Image([], map[], [], c, record) == Header(HEADER_SIZE, 0, c.id, 0)
    ensures FromLittleEndian(Image([], map[], [], c, record)[0..4]) == HEADER_SIZE
  {
    var h := Header(HEADER_SIZE, 0, c.id, 0);
    assert h + ([] + [] + []) == h;
    HeaderFields(HEADER_SIZE, 0, c.id, 0);
  }
}
