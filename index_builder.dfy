/** `InMemoryIndexBuilder`: collects the posting lists of a document
    collection in memory, then writes the whole index file in one go. */
module IndexBuilder {
  import opened Bytes
  import opened Postings
  import opened Tokenizing
  import opened OutputFile
  import opened IndexFormat

  /** Tokenizer kinds accepted by `setITokenizer`. */
  const SIMPLE_TOKENIZER: int := 0
  const STRTK_TOKENIZER: int := 1

  /** The file written when no output path was set. */
  const DEFAULT_OUTPUT_FILE: string := "index.bin"

  datatype Option<T> = None | Some(value: T)

  /** One document of the repository: its text and its metadata record. */
  datatype Document = Document(text: string, metaData: DocumentMetaData)

  datatype BuildError = NoTokenizerWithSuchId

  /** What `createIndex` hands back: the dictionary after writing, the
      document table, the compressor and the path of the file. */
  datatype Index = Index(dictionary: map<string, Term>, documentTable: seq<DocumentMetaData>,
                         compressor: Compressor, outputFilePath: string)

  /** A built index together with the bytes of its file, or the error raised. */
  datatype BuildResult = Built(index: Index, file: seq<byte>) | Failed(error: BuildError)

  /** The position of the first "" in `ts` at or after `i`, or the end. */
  function FirstSentinel(ts: seq<string>, i: nat): (n: nat)
    requires i <= |ts|
    ensures i <= n <= |ts|
    decreases |ts| - i
  {
    if i == |ts| || ts[i] == "" then i else FirstSentinel(ts, i + 1)
  }

  /** The tokens a tokenizer hands out before its first "" sentinel. */
  function UntilEmpty(ts: seq<string>): (r: seq<string>)
    ensures |r| <= |ts|
  {
    ts[..FirstSentinel(ts, 0)]
  }

  /** The scan stops at the first sentinel: nothing before it is "". */
  lemma {:induction false} FirstSentinelIsFirst(ts: seq<string>, i: nat)
    requires i <= |ts|
    ensures var n := FirstSentinel(ts, i);
      (forall k :: i <= k < n ==> ts[k] != "") && (n < |ts| ==> ts[n] == "")
    decreases |ts| - i
  {
    if i < |ts| && ts[i] != "" {
      FirstSentinelIsFirst(ts, i + 1);
    }
  }

  /** The tokens before the first sentinel: a prefix of `ts` with no "" in
      it, followed by a "" or by the end of `ts`. */
  lemma {:induction false} UntilEmptyIsPrefixBeforeSentinel(ts: seq<string>)
    ensures var r := UntilEmpty(ts);
      && r == ts[..|r|]
      && (forall k :: 0 <= k < |r| ==> r[k] != "")
      && (|r| < |ts| ==> ts[|r|] == "")
  {
    FirstSentinelIsFirst(ts, 0);
  }

  /** A text of non-empty tokens is passed through whole. */
  lemma {:induction false} UntilEmptyKeepsTokens(ts: seq<string>)
    requires forall k :: 0 <= k < |ts| ==> ts[k] != ""
    ensures UntilEmpty(ts) == ts
  {
    UntilEmptyIsPrefixBeforeSentinel(ts);
  }

  /** What `getNextToken` returns after `i` tokens were handed out. */
  function NextOf(ts: seq<string>, i: nat): string
  {
    if i < |ts| then ts[i] else ""
  }

  /** The tokens the indexer's token loop sees for one document. */
  function Stream(kind: int, text: string, strTk: string -> seq<string>): (ts: seq<string>)
    ensures forall k :: 0 <= k < |ts| ==> ts[k] != ""
  {
    if kind == SIMPLE_TOKENIZER then
      WordsNonEmpty(text, 0);
      Words(text, 0)
    else
      UntilEmptyIsPrefixBeforeSentinel(strTk(text));
      UntilEmpty(strTk(text))
  }

  /** The token streams of the documents, in repository order. */
  function Streams(documents: seq<Document>, kind: int, strTk: string -> seq<string>): (r: seq<seq<string>>)
    ensures |r| == |documents|
  {
    if documents == [] then []
    else
      var n := |documents| - 1;
      Streams(documents[..n], kind, strTk) + [Stream(kind, documents[n].text, strTk)]
  }

  /** The stream of the `k`-th document is its own text tokenized: documents
      are not reordered, merged or skipped. */
  lemma {:induction false} StreamOfDocument(documents: seq<Document>, kind: int, strTk: string -> seq<string>, k: nat)
    requires k < |documents|
    ensures Streams(documents, kind, strTk)[k] == Stream(kind, documents[k].text, strTk)
    decreases |documents|
  {
    var n := |documents| - 1;
    if k < n {
      StreamOfDocument(documents[..n], kind, strTk, k);
      assert documents[..n][k] == documents[k];
    }
  }

  /** The document table once every document has been added. */
  function MetaDataOf(documents: seq<Document>): (table: seq<DocumentMetaData>)
    ensures |table| == |documents|
  {
    if documents == [] then []
    else MetaDataOf(documents[..|documents| - 1]) + [documents[|documents| - 1].metaData]
  }

  /** Entry `k` of the document table is the metadata of document `k`. */
  lemma {:induction false} MetaDataOfLists(documents: seq<Document>, k: nat)
    requires k < |documents|
    ensures MetaDataOf(documents)[k] == documents[k].metaData
  {
    var n := |documents| - 1;
    if k < n {
      MetaDataOfLists(documents[..n], k);
    }
  }

  /** Indexing one more document: its tokens are added under its index. */
  lemma {:induction false} DocumentStep(dict: map<string, Term>, documents: seq<Document>, kind: int,
                     strTk: string -> seq<string>, n: nat)
    requires AllPending(dict) && n < |documents|
    ensures AddDocuments(dict, Streams(documents[..n + 1], kind, strTk))
         == AddTokens(AddDocuments(dict, Streams(documents[..n], kind, strTk)), Stream(kind, documents[n].text, strTk), n)
  {
    var prefix := documents[..n + 1];
    assert prefix[..n] == documents[..n] && prefix[n] == documents[n];
    var before := Streams(documents[..n], kind, strTk);
    var streams := before + [Stream(kind, documents[n].text, strTk)];
    assert Streams(prefix, kind, strTk) == streams;
    assert streams[..n] == before && streams[n] == Stream(kind, documents[n].text, strTk);
  }

  /** One more document's metadata joins the table. */
  lemma {:induction false} MetaDataStep(documents: seq<Document>, n: nat)
    requires n < |documents|
    ensures MetaDataOf(documents[..n + 1]) == MetaDataOf(documents[..n]) + [documents[n].metaData]
  {
    assert documents[..n + 1][..n] == documents[..n];
    assert documents[..n + 1][n] == documents[n];
  }

  /** Adding one more token of the current document. */
  lemma {:induction false} TokenStep(dict: map<string, Term>, tokens: seq<string>, d: nat, i: nat)
    requires AllPending(dict) && i < |tokens|
    ensures AddTokens(dict, tokens[..i + 1], d) == AddTerm(AddTokens(dict, tokens[..i], d), tokens[i], d)
  {
    assert tokens[..i + 1][..i] == tokens[..i];
  }

  /** One iteration of the dictionary: each key exactly once, in an order
      the model does not fix. */
  method IterationOrder(dict: map<string, Term>) returns (keys: seq<string>)
    ensures IsKeyOrder(keys, dict)
  {
    keys := [];
    var rest := dict.Keys;
    while rest != {}
      invariant rest <= dict.Keys
      invariant Distinct(keys)
      invariant forall i :: 0 <= i < |keys| ==> keys[i] in dict && keys[i] !in rest
      invariant forall w :: w in dict ==> w in keys || w in rest
      decreases rest
    {
      var w :| w in rest;
      assert w !in keys;
      assert (keys + [w])[..|keys|] == keys;
      keys := keys + [w];
      rest := rest - {w};
    }
  }

  /** The keys of an iteration whose terms are all pending are pending keys. */
  lemma {:induction false} KeyOrderIsPending(keys: seq<string>, dict: map<string, Term>)
    requires IsKeyOrder(keys, dict) && AllPending(dict)
    ensures PendingKeys(dict, keys)
  {
  }

  /** Patching the zero placeholder of the header turns it into the header
      that carries the dictionary offset. */
  lemma {:induction false} PatchPreamble(dict: map<string, Term>, c: Compressor, table: seq<DocumentMetaData>,
                      dictionaryOffset: nat, rest: seq<byte>)
    ensures Overwrite(Header(0, |dict|, c.id, |table|) + rest, 0, U32(dictionaryOffset % TWO_TO_32))
         == Header(dictionaryOffset, |dict|, c.id, |table|) + rest
  {
    var tail := U64(|dict|) + I32(c.id) + U32(|table|);
    assert Header(0, |dict|, c.id, |table|) + rest == U32(0) + (tail + rest);
    OverwritePrefix(U32(0), tail + rest, U32(dictionaryOffset % TWO_TO_32));
    assert (dictionaryOffset % TWO_TO_32) % TWO_TO_32 == dictionaryOffset % TWO_TO_32;
    assert U32(dictionaryOffset % TWO_TO_32) == U32(dictionaryOffset);
  }

  /** The file once the placeholder is patched with the offset of the
      records: the image of the index. */
  lemma {:induction false} PatchedFileIsImage(table: seq<DocumentMetaData>, dict: map<string, Term>, keys: seq<string>,
                           c: Compressor, record: Term -> seq<byte>, unpatched: seq<byte>,
                           dictionaryOffset: nat, file: seq<byte>)
    requires unpatched == Header(0, |dict|, c.id, |table|) + MetaDataBlock(table) + PostingLists(c, dict, keys)
                        + Records(record, WrittenTerms(dict, keys, PostingsStart(table), c), keys)
    requires dictionaryOffset == PostingsStart(table) + |PostingLists(c, dict, keys)|
    requires file == Overwrite(unpatched, 0, U32(dictionaryOffset % TWO_TO_32))
    ensures file == Image(table, dict, keys, c, record)
  {
    var postings := PostingLists(c, dict, keys);
    var records := Records(record, WrittenTerms(dict, keys, PostingsStart(table), c), keys);
    var rest := MetaDataBlock(table) + postings + records;
    SplitFirst(Header(0, |dict|, c.id, |table|), MetaDataBlock(table), postings, records);
    assert unpatched == Header(0, |dict|, c.id, |table|) + rest;
    PatchPreamble(dict, c, table, dictionaryOffset, rest);
    assert file == Header(dictionaryOffset, |dict|, c.id, |table|) + rest;
  }

  /** The writes of `finalize` before the posting lists: the header with a
      zero placeholder for the dictionary offset, then the metadata block. */
  method WriteHeaderAndMetaData(out: ByteSink, dict: map<string, Term>, c: Compressor, table: seq<DocumentMetaData>)
    requires out.Valid() && out.position == |out.bytes|
    modifies out
    ensures out.Valid() && out.position == |out.bytes|
    ensures out.bytes == old(out.bytes) + Header(0, |dict|, c.id, |table|) + MetaDataBlock(table)
  {
    ghost var before := out.bytes;
    out.Write(U32(0));
    out.Write(U64(|dict|));
    out.Write(I32(c.id));
    out.Write(U32(|table|));
    AppendFour(before, U32(0), U64(|dict|), I32(c.id), U32(|table|));
    out.Write(MetaDataBlock(table));
  }

  /** The last step of `finalize`: seek back to the start and write the
      dictionary offset over the placeholder. */
  method PatchDictionaryOffset(out: ByteSink, dictionaryOffset: nat)
    requires out.Valid() && |out.bytes| >= U32_WIDTH
    modifies out
    ensures out.Valid() && out.position == U32_WIDTH
    ensures out.bytes == Overwrite(old(out.bytes), 0, U32(dictionaryOffset % TWO_TO_32))
  {
    out.Seek(0);
    out.Write(U32(dictionaryOffset % TWO_TO_32));
  }

  class InMemoryIndexBuilder {
    const repositoryPath: string
    /** `iDictionary`; `None` is the null pointer. */
    var dictionary: Option<map<string, Term>>
    /** `iCompressor`; `None` is the null pointer. */
    var compressor: Option<Compressor>
    var tokenizerType: int
    var outputFilePath: string

    constructor (repositoryPath: string)
      ensures this.repositoryPath == repositoryPath
      ensures dictionary == None && compressor == None
      ensures outputFilePath == "" && tokenizerType == SIMPLE_TOKENIZER
    {
      this.repositoryPath := repositoryPath;
      dictionary := None;
      compressor := None;
      outputFilePath := "";
      tokenizerType := SIMPLE_TOKENIZER;
    }

    method SetDictionary(dictionary: Option<map<string, Term>>) returns (self: InMemoryIndexBuilder)
      modifies this
      ensures self == this && this.dictionary == dictionary
      ensures compressor == old(compressor) && tokenizerType == old(tokenizerType)
      ensures outputFilePath == old(outputFilePath)
    {
      this.dictionary := dictionary;
      self := this;
    }

    method SetCompressor(compressor: Option<Compressor>) returns (self: InMemoryIndexBuilder)
      modifies this
      ensures self == this && this.compressor == compressor
      ensures dictionary == old(dictionary) && tokenizerType == old(tokenizerType)
      ensures outputFilePath == old(outputFilePath)
    {
      this.compressor := compressor;
      self := this;
    }

    method SetTokenizer(tokenizerType: int) returns (self: InMemoryIndexBuilder)
      modifies this
      ensures self == this && this.tokenizerType == tokenizerType
      ensures dictionary == old(dictionary) && compressor == old(compressor)
      ensures outputFilePath == old(outputFilePath)
    {
      this.tokenizerType := tokenizerType;
      self := this;
    }

    method SetOutputFilePath(outputFilePath: string) returns (self: InMemoryIndexBuilder)
      modifies this
      ensures self == this && this.outputFilePath == outputFilePath
      ensures dictionary == old(dictionary) && compressor == old(compressor)
      ensures tokenizerType == old(tokenizerType)
    {
      this.outputFilePath := outputFilePath;
      self := this;
    }

    /** `addTerm(token, documentTable)` while the table holds `documentNumber`
        documents: look the token up (inserting it if absent), then either
        start its posting list, bump the frequency of its last entry, or
        append an entry for the current document. */
    method AddTerm(token: string, documentNumber: nat)
      requires dictionary.Some? && AllPending(dictionary.value)
      modifies this
      ensures dictionary == Some(Postings.AddTerm(old(dictionary.value), token, documentNumber))
      ensures compressor == old(compressor) && tokenizerType == old(tokenizerType)
      ensures outputFilePath == old(outputFilePath)
    {
      var dict := dictionary.value;
      var term := if token in dict then dict[token] else NewTerm(token);
      var entries := term.postingList.entries;
      if entries == [] {
        term := Term(term.text, term.documentNumber + 1, Pending([Entry(documentNumber, 1)]));
      } else {
        var last := entries[|entries| - 1];
        if documentNumber == last.documentIndex {
          term := term.(postingList := Pending(entries[..|entries| - 1] + [last.(ftd := last.ftd + 1)]));
        } else {
          term := Term(term.text, term.documentNumber + 1, Pending(entries + [Entry(documentNumber, 1)]));
        }
      }
      dictionary := Some(dict[token := term]);
    }

    /** The first loop of `finalize`: each term's posting list is encoded at
        the position `tellp` reports, and its slot becomes that position. */
    method WritePostingLists(out: ByteSink, c: Compressor, keys: seq<string>)
      requires dictionary.Some? && PendingKeys(dictionary.value, keys) && Distinct(keys)
      requires out.Valid() && out.position == |out.bytes|
      modifies this, out
      ensures out.Valid() && out.position == |out.bytes|
      ensures out.bytes == old(out.bytes) + PostingLists(c, old(dictionary.value), keys)
      ensures dictionary == Some(WrittenTerms(old(dictionary.value), keys, old(|out.bytes|), c))
      ensures compressor == old(compressor) && tokenizerType == old(tokenizerType)
      ensures outputFilePath == old(outputFilePath)
    {
      ghost var dict := dictionary.value;
      ghost var head := out.bytes;
      ghost var start := |out.bytes|;
      var i := 0;
      assert keys[..0] == [];
      while i < |keys|
        invariant 0 <= i <= |keys|
        invariant out.Valid() && out.position == |out.bytes|
        invariant out.bytes == head + PostingLists(c, dict, keys[..i])
        invariant dictionary == Some(WrittenTerms(dict, keys[..i], start, c))
        invariant compressor == old(compressor) && tokenizerType == old(tokenizerType)
        invariant outputFilePath == old(outputFilePath)
      {
        PostingListStep(dict, keys, c, i, head);
        var term := dictionary.value[keys[i]];
        var postingListOffset := out.Tell();
        out.Write(c.encode(term.postingList.entries));
        dictionary := Some(dictionary.value[keys[i] := term.(postingList := Written(postingListOffset % TWO_TO_32))]);
        i := i + 1;
      }
      assert keys[..i] == keys;
    }

    /** The second loop of `finalize`: the term records, in the same order. */
    method WriteRecords(out: ByteSink, record: Term -> seq<byte>, keys: seq<string>)
      requires dictionary.Some? && forall j :: 0 <= j < |keys| ==> keys[j] in dictionary.value
      requires out.Valid() && out.position == |out.bytes|
      modifies out
      ensures out.Valid() && out.position == |out.bytes|
      ensures out.bytes == old(out.bytes) + Records(record, dictionary.value, keys)
    {
      ghost var head := out.bytes;
      var i := 0;
      assert keys[..0] == [];
      while i < |keys|
        invariant 0 <= i <= |keys|
        invariant out.Valid() && out.position == |out.bytes|
        invariant out.bytes == head + Records(record, dictionary.value, keys[..i])
      {
        out.Write(record(dictionary.value[keys[i]]));
        RecordsStep(record, dictionary.value, keys, i);
        i := i + 1;
      }
      assert keys[..i] == keys;
    }

    /** `finalize(documentTable)`: write the header with a placeholder, the
        metadata block and every posting list, turning each term's slot into
        its list's offset; then the term records; then patch the placeholder
        with the offset of the records. */
    method Finalize(table: seq<DocumentMetaData>, keys: seq<string>, record: Term -> seq<byte>)
      returns (file: seq<byte>)
      requires dictionary.Some? && compressor.Some?
      requires AllPending(dictionary.value) && IsKeyOrder(keys, dictionary.value)
      modifies this
      ensures PendingKeys(old(dictionary.value), keys)
      ensures file == Image(table, old(dictionary.value), keys, old(compressor.value), record)
      ensures dictionary == Some(WrittenTerms(old(dictionary.value), keys, PostingsStart(table), old(compressor.value)))
      ensures compressor == old(compressor) && tokenizerType == old(tokenizerType)
      ensures outputFilePath == old(outputFilePath)
    {
      var dict := dictionary.value;
      var c := compressor.value;
      KeyOrderIsPending(keys, dict);
      var out := new ByteSink();
      WriteHeaderAndMetaData(out, dict, c, table);
      ghost var preamble := out.bytes;
      assert preamble == Header(0, |dict|, c.id, |table|) + MetaDataBlock(table);
      assert |preamble| == PostingsStart(table);
      WritePostingLists(out, c, keys);
      var dictionaryOffset := out.Tell();
      assert dictionaryOffset == PostingsStart(table) + |PostingLists(c, dict, keys)|;
      assert dictionary.value == WrittenTerms(dict, keys, PostingsStart(table), c);
      WriteRecords(out, record, keys);
      ghost var unpatched := out.bytes;
      assert unpatched == Header(0, |dict|, c.id, |table|) + MetaDataBlock(table) + PostingLists(c, dict, keys)
                        + Records(record, WrittenTerms(dict, keys, PostingsStart(table), c), keys);
      PatchDictionaryOffset(out, dictionaryOffset);
      file := out.bytes;
      PatchedFileIsImage(table, dict, keys, c, record, unpatched, dictionaryOffset, file);
    }

    /** The token loop of `createIndex` with the whitespace tokenizer:
        every word of the text is added under the current document index. */
    method AddSimpleTokens(text: string, documentNumber: nat)
      requires dictionary.Some? && AllPending(dictionary.value)
      modifies this
      ensures dictionary == Some(AddTokens(old(dictionary.value), Words(text, 0), documentNumber))
      ensures compressor == old(compressor) && tokenizerType == old(tokenizerType)
      ensures outputFilePath == old(outputFilePath)
    {
      ghost var start := dictionary.value;
      ghost var words := Words(text, 0);
      var tokenizer := new Tokenizer(text);
      ghost var i := 0;
      var token := tokenizer.GetNextToken();
      while token != ""
        invariant i <= |words| && dictionary.Some?
        invariant dictionary == Some(AddTokens(start, words[..i], documentNumber))
        invariant token != "" ==> i < |words| && token == words[i] && tokenizer.Pending() == words[i + 1..]
        invariant token == "" ==> i == |words|
        invariant compressor == old(compressor) && tokenizerType == old(tokenizerType)
        invariant outputFilePath == old(outputFilePath)
        decreases |words| - i
      {
        TokenStep(start, words, documentNumber, i);
        AddTerm(token, documentNumber);
        i := i + 1;
        token := tokenizer.GetNextToken();
      }
      assert words[..i] == words;
    }

    /** The token loop of `createIndex` with the StrTk tokenizer, which hands
        out `tokens` one by one: they are added up to the first "". */
    method AddStrTkTokens(tokens: seq<string>, documentNumber: nat)
      requires dictionary.Some? && AllPending(dictionary.value)
      modifies this
      ensures dictionary == Some(AddTokens(old(dictionary.value), UntilEmpty(tokens), documentNumber))
      ensures compressor == old(compressor) && tokenizerType == old(tokenizerType)
      ensures outputFilePath == old(outputFilePath)
    {
      ghost var start := dictionary.value;
      var i := 0;
      var token := NextOf(tokens, i);
      while token != ""
        invariant i <= |tokens| && dictionary.Some?
        invariant token == NextOf(tokens, i) && FirstSentinel(tokens, i) == FirstSentinel(tokens, 0)
        invariant dictionary == Some(AddTokens(start, tokens[..i], documentNumber))
        invariant compressor == old(compressor) && tokenizerType == old(tokenizerType)
        invariant outputFilePath == old(outputFilePath)
        decreases |tokens| - i
      {
        TokenStep(start, tokens, documentNumber, i);
        AddTerm(token, documentNumber);
        i := i + 1;
        token := NextOf(tokens, i);
      }
      assert FirstSentinel(tokens, i) == i;
    }

    /** The document loop of `createIndex`: each document's tokens are added
        under the number of documents before it, then its metadata joins the
        table. An unknown tokenizer type fails at the first document. */
    method IndexDocuments(documents: seq<Document>, strTk: string -> seq<string>)
      returns (ok: bool, table: seq<DocumentMetaData>)
      requires dictionary.Some? && AllPending(dictionary.value)
      modifies this
      ensures ok <==> |documents| == 0 || tokenizerType == SIMPLE_TOKENIZER || tokenizerType == STRTK_TOKENIZER
      ensures !ok ==> dictionary == old(dictionary)
      ensures ok ==> table == MetaDataOf(documents)
      ensures ok ==> dictionary == Some(AddDocuments(old(dictionary.value), Streams(documents, tokenizerType, strTk)))
      ensures compressor == old(compressor) && tokenizerType == old(tokenizerType)
      ensures outputFilePath == old(outputFilePath)
    {
      ghost var start := dictionary.value;
      table := [];
      var n := 0;
      assert documents[..0] == [];
      while n < |documents|
        invariant n <= |documents| && table == MetaDataOf(documents[..n])
        invariant dictionary == Some(AddDocuments(start, Streams(documents[..n], tokenizerType, strTk)))
        invariant n > 0 ==> tokenizerType == SIMPLE_TOKENIZER || tokenizerType == STRTK_TOKENIZER
        invariant compressor == old(compressor) && tokenizerType == old(tokenizerType)
        invariant outputFilePath == old(outputFilePath)
      {
        var document := documents[n];
        DocumentStep(start, documents, tokenizerType, strTk, n);
        MetaDataStep(documents, n);
        assert |table| == n;
        if tokenizerType == SIMPLE_TOKENIZER {
          AddSimpleTokens(document.text, |table|);
        } else if tokenizerType == STRTK_TOKENIZER {
          AddStrTkTokens(strTk(document.text), |table|);
        } else {
          return false, table;
        }
        table := table + [document.metaData];
        n := n + 1;
      }
      assert documents[..n] == documents;
      ok := true;
    }

    /** `createIndex`: fill in the defaults, index the documents, then write
        the file over one iteration of the dictionary. */
    method CreateIndex(documents: seq<Document>, noCompressor: Compressor,
                       strTk: string -> seq<string>, record: Term -> seq<byte>)
      returns (result: BuildResult, ghost keys: seq<string>)
      requires dictionary.Some? ==> AllPending(dictionary.value)
      modifies this
      ensures var c := if old(compressor).Some? then old(compressor).value else noCompressor;
        compressor == Some(c)
      ensures outputFilePath == if old(outputFilePath) == "" then DEFAULT_OUTPUT_FILE else old(outputFilePath)
      ensures tokenizerType == old(tokenizerType)
      ensures result.Failed? <==>
        |documents| > 0 && tokenizerType != SIMPLE_TOKENIZER && tokenizerType != STRTK_TOKENIZER
      ensures result.Failed? ==>
        dictionary == Some(if old(dictionary).Some? then old(dictionary).value else map[])
      ensures result.Built? ==>
        var start := if old(dictionary).Some? then old(dictionary).value else map[];
        var dict := AddDocuments(start, Streams(documents, tokenizerType, strTk));
        var table := MetaDataOf(documents);
        && IsKeyOrder(keys, dict) && PendingKeys(dict, keys)
        && result.file == Image(table, dict, keys, compressor.value, record)
        && result.index == Index(WrittenTerms(dict, keys, PostingsStart(table), compressor.value),
                                 table, compressor.value, outputFilePath)
        && dictionary == Some(result.index.dictionary)
    {
      if dictionary.None? {
        dictionary := Some(map[]);
      }
      if compressor.None? {
        compressor := Some(noCompressor);
      }
      if outputFilePath == "" {
        outputFilePath := DEFAULT_OUTPUT_FILE;
      }
      var ok, table := IndexDocuments(documents, strTk);
      if !ok {
        return Failed(NoTokenizerWithSuchId), [];
      }
      var order := IterationOrder(dictionary.value);
      var file := Finalize(table, order, record);
      result := Built(Index(dictionary.value, table, compressor.value, outputFilePath), file);
      keys := order;
    }
  }
}
