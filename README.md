# In-memory index builder and whitespace tokenizer

A Dafny model of the indexing core of an information-retrieval engine:

- `InMemoryIndexBuilder` walks a repository document by document. It tokenizes each text, accumulates one posting list per term, and records each document's metadata.
- Its `finalize` writes one binary index file. The file holds a 20-byte header, the metadata block, every posting list back to back, then the term records. A placeholder in the first four bytes is patched at the end with the offset of the term records (the dictionary offset).
- The whitespace `Tokenizer` hands out the maximal runs of non-whitespace characters of a document, one per call, and `""` once they are used up.

Modules, one per file:

| file | module | contents |
|---|---|---|
| `bytes.dfy` | `Bytes` | bytes, little-endian fixed-width integers (`unsigned int`, `unsigned long long`, `int`) and their round trips |
| `byte_sink.dfy` | `OutputFile` | the output file as a byte buffer with a write cursor (`write`, `tellp`, `seekp`) |
| `postings.dfy` | `Postings` | terms, posting-list entries and slots, `addTerm` on values, its invariants, and a reference definition of the finished posting lists |
| `tokenizer.dfy` | `Tokenizing` | the words of a text as a specification, and the `Tokenizer` class with its cursor |
| `index_format.dfy` | `IndexFormat` | the image of the index file (`Image`) and the layout lemmas about it |
| `index_builder.dfy` | `IndexBuilder` | the `InMemoryIndexBuilder` class: setters, `addTerm`, the loops of `createIndex`, and `finalize` with its two passes and the back-patch |

The builder is an imperative class. Its fields (`dictionary`, `compressor`, `tokenizerType`, `outputFilePath`) are updated in place. The setters and the constructor state their new fields directly. Every other method is proved against a specification function:

- `AddTerm` against `Postings.AddTerm`;
- the token loops against `Postings.AddTokens`;
- the document loop against `Postings.AddDocuments`;
- `Finalize` and `CreateIndex` against `IndexFormat.Image`.

The properties of the source are then lemmas about those functions. The main ones:

- Indexing documents in order, starting from an empty dictionary, gives every term exactly its reference posting list: one entry per document containing it, ascending, with its occurrence count. The term's counter is that list's length (`IndexMatchesReference`).
- In the finished file, each term's slot holds the offset of its posting list's bytes, and the first four bytes point at the term records (`ImagePostingList`, `ImageRecords`).

Modelling choices:

- A term's posting-list pointer is `Slot = Pending(entries) | Written(offset)`: the in-memory list before `finalize`, the file offset after. A null list is an empty `Pending` list.
- The document table is the sequence of metadata records, so the document number used for the `k`-th document is `k`.
- The dictionary is a `map<string, Term>`. One iteration of it is a sequence of keys, each key exactly once, in an order the model does not fix (`IterationOrder`). The same sequence serves both passes of `finalize`.
- The tokenizer's `currentPosition` is a `Cursor`: either an offset into the text, or `Exhausted`. `Exhausted` is the value `tellg()` reports once extraction has reached the end of the text (-1 cast to `unsigned int`). A later `seekg` to it fails.
- Whitespace is the classic-locale `isspace` set: space, tab, line feed, vertical tab, form feed, carriage return.
- The compressor (`ICompressor`) is a value holding its id and an encoding function from entries to bytes. The term record written by `operator<<` is a function from a term to bytes. The StrTk tokenizer is a function from a text to its token sequence. `NoCompressor`, its default, is a parameter of `CreateIndex`.
- The casts are explicit:
  - offsets and the document count are taken modulo 2^32 (`unsigned int`);
  - the term count is taken modulo 2^64;
  - the compressor id is a 32-bit two's-complement `int`.
- Integers are written little-endian.

## Model

| member | source | states |
|---|---|---|
| Bytes.DecodeEncode | IR/IR/InMemoryIndexBuilder.cpp:136-146 | a value below 256^width reads back from its `width` little-endian bytes |
| Bytes.EncodeDecode | IR/IR/InMemoryIndexBuilder.cpp:136-146 | any byte string is the encoding of the number it decodes to |
| Bytes.U32RoundTrip | IR/IR/InMemoryIndexBuilder.cpp:136-137 | an `unsigned int` field reads back as the value modulo 2^32 |
| Bytes.U64RoundTrip | IR/IR/InMemoryIndexBuilder.cpp:140 | the `unsigned long long` term count reads back modulo 2^64 |
| Bytes.I32RoundTrip | IR/IR/InMemoryIndexBuilder.cpp:143 | the `int` compressor id reads back exactly as a signed 32-bit value |
| Bytes.U32 | IR/IR/InMemoryIndexBuilder.cpp:136-137 | an `unsigned int` field is four bytes |
| Bytes.U64 | IR/IR/InMemoryIndexBuilder.cpp:140 | the `unsigned long long` term count is eight bytes |
| Bytes.I32 | IR/IR/InMemoryIndexBuilder.cpp:143 | the `int` compressor id is four bytes |
| OutputFile.OverwriteParts | IR/IR/InMemoryIndexBuilder.cpp:174-175 | writing at position p keeps the bytes before p, puts the data at p, and keeps the tail past it |
| OutputFile.OverwritePrefix | IR/IR/InMemoryIndexBuilder.cpp:174-175 | writing over a prefix of the same length replaces exactly that prefix |
| OutputFile.Overwrite | IR/IR/InMemoryIndexBuilder.cpp:174-175 | a write at p keeps the length when the data fits inside, and otherwise extends the file to p plus the data length |
| OutputFile.ByteSink.Write | IR/IR/InMemoryIndexBuilder.cpp:137 | a write at the end appends; a write inside overwrites from the cursor; the cursor advances by the data length |
| OutputFile.ByteSink.Tell | IR/IR/InMemoryIndexBuilder.cpp:157 | `tellp` returns the cursor |
| OutputFile.ByteSink.Seek | IR/IR/InMemoryIndexBuilder.cpp:174 | `seekp` moves the cursor and leaves the bytes alone |
| Postings.Posted | IR/IR/InMemoryIndexBuilder.cpp:95-116 | after an occurrence in document d the list is non-empty and its last entry is d's |
| Postings.RepeatBumpsLastEntry | IR/IR/InMemoryIndexBuilder.cpp:106-110 | a repeat in the same document keeps the length and all earlier entries, and adds one to the last frequency |
| Postings.NewDocumentAppendsEntry | IR/IR/InMemoryIndexBuilder.cpp:95-116 | a first occurrence in a new document appends (d, 1) and keeps the rest |
| Postings.PostTerm | IR/IR/InMemoryIndexBuilder.cpp:95-117 | the counter goes up by one exactly when the list grows; a well-formed term whose indices are at most d stays well formed |
| Postings.AddTerm | IR/IR/InMemoryIndexBuilder.cpp:92-118 | only the token's term changes; it is inserted if absent; its last entry is the current document's |
| Postings.AddTermWellFormed | IR/IR/InMemoryIndexBuilder.cpp:106-116 | while d does not decrease, every list stays strictly ascending with positive frequencies and a counter equal to its length |
| Postings.AddTokens | IR/IR/InMemoryIndexBuilder.cpp:79-82 | a token loop over a dictionary of pending lists leaves every list pending |
| Postings.AddTokensWellFormed | IR/IR/InMemoryIndexBuilder.cpp:79-82 | a document's whole token loop keeps every term well formed |
| Postings.WellFormedLater | IR/IR/InMemoryIndexBuilder.cpp:99 | well formed up to d0 implies well formed up to any later document number |
| Postings.AddDocumentsWellFormed | IR/IR/InMemoryIndexBuilder.cpp:63-86 | indexing documents 0, 1, ... in order keeps every term well formed |
| Postings.AddDocuments | IR/IR/InMemoryIndexBuilder.cpp:63-86 | the document loop over a dictionary of pending lists leaves every list pending |
| Postings.ReferenceEntries | IR/IR/InMemoryIndexBuilder.cpp:63-86 | the reference list is ascending; each entry names a document and carries that document's positive occurrence count |
| Postings.ReferenceComplete | IR/IR/InMemoryIndexBuilder.cpp:63-86 | every document containing the term has an entry in the reference list |
| Postings.AddTermEffect | IR/IR/InMemoryIndexBuilder.cpp:92-118 | one token adds one occurrence to its term's entry for d, creating it and counting it when new, and changes no other term |
| Postings.AddTokensEffect | IR/IR/InMemoryIndexBuilder.cpp:79-83 | a document's tokens give each term one new entry (d, n) when it occurs n > 0 times, and nothing otherwise |
| Postings.AddDocumentsEffect | IR/IR/InMemoryIndexBuilder.cpp:63-86 | for a term absent at the start, the built list is the reference list and the counter its length |
| Postings.IndexMatchesReference | IR/IR/InMemoryIndexBuilder.cpp:63-86 | from an empty dictionary, a term is present exactly when some document contains it, and then it is (text, reference length, reference list) |
| Tokenizing.SkipSpaces | IR/IR/Tokenizer.cpp:17 | extraction skips exactly the leading whitespace |
| Tokenizing.WordEnd | IR/IR/Tokenizer.cpp:17 | a word runs to the next whitespace character or the end |
| Tokenizing.SpanIsMaximalRun | IR/IR/Tokenizer.cpp:17 | each span is a maximal non-whitespace run; spans come left to right with whitespace between them |
| Tokenizing.WordIsSpan | IR/IR/Tokenizer.cpp:17 | the k-th word is the text of the k-th span and is not empty |
| Tokenizing.Words | IR/IR/Tokenizer.cpp:17 | there is one word per maximal non-whitespace span |
| Tokenizing.WordsNonEmpty | IR/IR/Tokenizer.cpp:17 | no word is the "" that signals the end |
| Tokenizing.WordsHaveNoSpace | IR/IR/Tokenizer.cpp:17 | no word contains a whitespace character |
| Tokenizing.SpansCover | IR/IR/Tokenizer.cpp:17 | every non-whitespace character lies in some word |
| Tokenizing.BlankTextHasNoWords | IR/IR/Tokenizer.cpp:16-22 | an empty or all-whitespace text has no words |
| Tokenizing.WordCountIsRunCount | IR/IR/Tokenizer.cpp:11-23 | from a position outside a word, the number of words equals the number of run starts |
| Tokenizing.TokenCount | IR/IR/Tokenizer.cpp:11-23 | the number of tokens of a text equals its number of maximal non-whitespace runs |
| Tokenizing.ExtractWord | IR/IR/Tokenizer.cpp:16-22 | one seek-and-extract step yields the first remaining word and leaves the rest, or fails with "" and no move |
| Tokenizing.Tokenizer.constructor | IR/IR/Tokenizer.cpp:6-9 | a new tokenizer has all words of the text still to hand out |
| Tokenizing.Tokenizer.GetNextToken | IR/IR/Tokenizer.cpp:11-23 | returns the next word and moves the cursor just past it; once the words are used up, returns "" and stays put, so every later call returns "" |
| IndexFormat.Header | IR/IR/InMemoryIndexBuilder.cpp:136-146 | the header is 20 bytes |
| IndexFormat.HeaderFields | IR/IR/InMemoryIndexBuilder.cpp:136-146 | each header field reads back at its width: offset and document count modulo 2^32, term count modulo 2^64, compressor id exactly |
| IndexFormat.WrittenTerms | IR/IR/InMemoryIndexBuilder.cpp:155-163 | writing the posting lists keeps the dictionary's keys |
| IndexFormat.WrittenTermsFrame | IR/IR/InMemoryIndexBuilder.cpp:155-163 | the first pass keeps every term's text and counter and leaves terms outside the keys alone |
| IndexFormat.PostingListStep | IR/IR/InMemoryIndexBuilder.cpp:155-162 | one iteration appends the key's encoding and sets its slot to the offset before it, modulo 2^32 |
| IndexFormat.WrittenTermAt | IR/IR/InMemoryIndexBuilder.cpp:152-163 | the k-th key's slot holds the offset of the k-th posting list modulo 2^32 |
| IndexFormat.AllTermsWritten | IR/IR/InMemoryIndexBuilder.cpp:155-163 | after the first pass every term's slot is an offset |
| IndexFormat.PostingSlot | IR/IR/InMemoryIndexBuilder.cpp:157-161 | the slot is the exact offset when it fits in 32 bits |
| IndexFormat.EncodingWithin | IR/IR/InMemoryIndexBuilder.cpp:151-163 | the k-th encoding lies in the posting lists right after the earlier ones |
| IndexFormat.ImageSections | IR/IR/InMemoryIndexBuilder.cpp:124-173 | the file is the header, the metadata block, the posting lists and the term records, at those positions |
| IndexFormat.PostingBytes | IR/IR/InMemoryIndexBuilder.cpp:155-161 | the k-th posting list's encoding lies in the file at its offset |
| IndexFormat.ImagePostingList | IR/IR/InMemoryIndexBuilder.cpp:155-161 | for a file under 4 GiB, each term's slot equals the file length just before its encoding, and its encoding is at that offset |
| IndexFormat.ImageRecords | IR/IR/InMemoryIndexBuilder.cpp:167-175 | for a file under 4 GiB, the first four bytes read back as the position just past the last posting list, where the term records begin |
| IndexFormat.MetaDataBlockSize | IR/IR/InMemoryIndexBuilder.cpp:149 | fixed-size records make a block of documentNumber * size bytes |
| IndexFormat.FirstPostingListOffset | IR/IR/InMemoryIndexBuilder.cpp:136-157 | the first posting list starts at 20 + documentNumber * sizeof(DocumentMetaData) |
| IndexFormat.EmptyCorpusImage | IR/IR/InMemoryIndexBuilder.cpp:119-180 | with no documents and no terms the file is the header alone, and its offset field is 20 |
| IndexFormat.Image | IR/IR/InMemoryIndexBuilder.cpp:119-180 | the file is exactly as long as the header, the metadata block, the posting lists and the term records together |
| IndexBuilder.UntilEmptyIsPrefixBeforeSentinel | IR/IR/InMemoryIndexBuilder.cpp:79 | the token loop takes a prefix with no "" in it, stopping at the first "" |
| IndexBuilder.UntilEmptyKeepsTokens | IR/IR/InMemoryIndexBuilder.cpp:79 | a token sequence with no "" is taken whole |
| IndexBuilder.Stream | IR/IR/InMemoryIndexBuilder.cpp:67-79 | whichever tokenizer the type selects, no token the loop takes is "" |
| IndexBuilder.Streams | IR/IR/InMemoryIndexBuilder.cpp:63-79 | there is one token stream per document |
| IndexBuilder.StreamOfDocument | IR/IR/InMemoryIndexBuilder.cpp:63-79 | the k-th stream is the k-th document's text run through the selected tokenizer |
| IndexBuilder.MetaDataOfLists | IR/IR/InMemoryIndexBuilder.cpp:83 | entry k of the document table is document k's metadata |
| IndexBuilder.IterationOrder | IR/IR/InMemoryIndexBuilder.cpp:152-170 | an iteration lists every key of the dictionary exactly once |
| IndexBuilder.PatchPreamble | IR/IR/InMemoryIndexBuilder.cpp:136-175 | patching the zero placeholder turns the header written with offset 0 into the header with the dictionary offset |
| IndexBuilder.PatchedFileIsImage | IR/IR/InMemoryIndexBuilder.cpp:174-175 | the patched file is the image of the index |
| IndexBuilder.WriteHeaderAndMetaData | IR/IR/InMemoryIndexBuilder.cpp:136-149 | appends the placeholder, term count, compressor id, document count, then the metadata block |
| IndexBuilder.PatchDictionaryOffset | IR/IR/InMemoryIndexBuilder.cpp:174-175 | overwrites the first four bytes with the offset, modulo 2^32, and leaves the cursor just past them |
| IndexBuilder.InMemoryIndexBuilder.constructor | IR/IR/InMemoryIndexBuilder.cpp:12-19 | no dictionary, no compressor, empty output path, the simple tokenizer |
| IndexBuilder.InMemoryIndexBuilder.SetDictionary | IR/IR/InMemoryIndexBuilder.cpp:21-25 | sets the dictionary, changes nothing else, returns the builder |
| IndexBuilder.InMemoryIndexBuilder.SetCompressor | IR/IR/InMemoryIndexBuilder.cpp:27-31 | sets the compressor, changes nothing else, returns the builder |
| IndexBuilder.InMemoryIndexBuilder.SetTokenizer | IR/IR/InMemoryIndexBuilder.cpp:33-37 | sets the tokenizer type, changes nothing else, returns the builder |
| IndexBuilder.InMemoryIndexBuilder.SetOutputFilePath | IR/IR/InMemoryIndexBuilder.cpp:39-43 | sets the output path, changes nothing else, returns the builder |
| IndexBuilder.InMemoryIndexBuilder.AddTerm | IR/IR/InMemoryIndexBuilder.cpp:92-118 | the in-place update leaves the dictionary that `Postings.AddTerm` specifies, and no other field changes |
| IndexBuilder.InMemoryIndexBuilder.WritePostingLists | IR/IR/InMemoryIndexBuilder.cpp:151-164 | appends the encodings in key order; each slot becomes the `tellp` before its encoding, modulo 2^32 |
| IndexBuilder.InMemoryIndexBuilder.WriteRecords | IR/IR/InMemoryIndexBuilder.cpp:169-173 | appends the term records in key order |
| IndexBuilder.InMemoryIndexBuilder.Finalize | IR/IR/InMemoryIndexBuilder.cpp:119-180 | the file written is the image of the index, and every slot of the dictionary is then its list's offset |
| IndexBuilder.InMemoryIndexBuilder.AddSimpleTokens | IR/IR/InMemoryIndexBuilder.cpp:68-82 | the token loop adds every word of the text under the current document number |
| IndexBuilder.InMemoryIndexBuilder.AddStrTkTokens | IR/IR/InMemoryIndexBuilder.cpp:71-82 | the token loop adds the StrTk tokens up to the first "" |
| IndexBuilder.InMemoryIndexBuilder.IndexDocuments | IR/IR/InMemoryIndexBuilder.cpp:63-86 | documents are indexed in order under their own numbers; an unknown tokenizer type fails exactly when there is a document, leaving the dictionary untouched |
| IndexBuilder.InMemoryIndexBuilder.CreateIndex | IR/IR/InMemoryIndexBuilder.cpp:46-91 | fills in the defaults, fails exactly on an unknown tokenizer type with documents present, and otherwise returns the index and the image of its file |

## Left out

- Reading the repository (`DocumentProvider`) is left out: the documents are a sequence parameter, each a text plus its metadata record.
- Opening the file (`FileManager::openOfstream`), `close`, and I/O failures are left out. The file is the byte buffer `ByteSink`, built fresh, and `Finalize` returns its final bytes.
- `HashTableDictionary` and `Hasher` are left out; the dictionary is a `map`. `getTermsNumber` is the map's size. `IDictionary::addTerm` is `Postings.Lookup`: a map lookup that falls back to `NewTerm`. `getIterator` is one iteration in an unfixed order, assumed the same for both passes because no key is added or removed between them.
- `NoCompressor`, `StrTkTokenizer` and `Term`'s `operator<<` are not part of this model. They are parameters: a compressor value, a token function and a record function.
- `DocumentTable::finalize` and `getFinalizedDocumentTable` are not part of this model. The finalized table is taken to be the metadata records one after another.
- `new`/`delete`, the `erase` of each list, and the pointer-to-`unsigned int` casts are left out. The `Pending`/`Written` slot replaces them.
- The values of `SIMPLE_TOKENIZER`, `STRTK_TOKENIZER` and `DEFAULT_OUTPUT_FILE` are defined in a header that is not part of this model. The model uses 0, 1 and "index.bin".
- The initial `ftd` of a new `DocumentTerm` is set in a header that is not shown. The model takes it to be 1. The initial `currentPosition` is taken to be 0.
- The `runtime_error` for an unknown tokenizer type is the `Failed(NoTokenizerWithSuchId)` result. A real exception would leave the builder's defaults set, as the model does.
- `IIndexer.h` is an interface with no logic and is left out. So is the construction of `Index`, which only bundles the builder's fields (the `Index` datatype).
- Native byte order is left out; little-endian is fixed.
- Document indices (`documentIndex`), term counters (`documentNumber`) and frequencies (`ftd`) are unbounded; their machine width is not modelled.
- A text is a `string` whose characters stand for the bytes of the `std::string`, and the tokenizer's cursor is an offset into them, as `tellg` is a byte offset. The whitespace set is ASCII, so no behaviour of the tokenizer depends on multi-byte characters.
- IndexFormat.ImagePostingList: requires the file to be smaller than 2^32 bytes, so that the `unsigned int` offsets are exact. Without it, `WrittenTermAt` states the offset modulo 2^32.
- IndexFormat.ImageRecords: requires the file to be smaller than 2^32 bytes, so that the dictionary offset read back from the header is exact.
- OutputFile.ByteSink.Seek: requires a position inside the file. A seek past the end, which `finalize` never does, is not modelled.
- IndexBuilder.InMemoryIndexBuilder.CreateIndex: requires every posting list of a supplied dictionary to be still in memory, so the builder is taken to be single-use. After a `finalize` the slots hold file offsets, and the source does not reject a second `createIndex` with that dictionary: `addTerm` and `finalize` would dereference an offset as a list pointer, which has no defined behaviour to model.
