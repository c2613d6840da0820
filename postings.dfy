/** Terms and their posting lists, and how indexing a stream of tokens builds them. */
module Postings {

  /** `DocumentTerm`: a document's index and the term's frequency in it. */
  datatype Entry = Entry(documentIndex: nat, ftd: nat)

  /** A term's `postingList` slot: the in-memory list while indexing, the
      file offset of its encoding once it has been written. */
  datatype Slot = Pending(entries: seq<Entry>) | Written(offset: nat)

  /** A dictionary entry: the term's text, the number of documents that
      contain it, and its posting list. */
  datatype Term = Term(text: string, documentNumber: nat, postingList: Slot)

  /** The term a dictionary creates for a text it has not seen: no documents
      and no posting list yet (a null list is an empty pending one). */
  function NewTerm(text: string): Term
  {
    Term(text, 0, Pending([]))
  }

  predicate AllPending(dict: map<string, Term>)
  {
    forall w :: w in dict ==> dict[w].postingList.Pending?
  }

  /** `IDictionary::addTerm` as a lookup: the stored term, or a new one. */
  function Lookup(dict: map<string, Term>, w: string): (t: Term)
    requires AllPending(dict)
    ensures t.postingList.Pending?
    ensures w in dict ==> t == dict[w]
    ensures w !in dict ==> t == NewTerm(w)
  {
    if w in dict then dict[w] else NewTerm(w)
  }

  predicate StrictlyAscending(es: seq<Entry>)
  {
    forall i, j :: 0 <= i < j < |es| ==> es[i].documentIndex < es[j].documentIndex
  }

  /** The invariant of a term during indexing: its counter is the length of
      its posting list, whose indices strictly ascend and whose frequencies
      are positive. */
  predicate WellFormed(t: Term)
  {
    && t.postingList.Pending?
    && t.documentNumber == |t.postingList.entries|
    && StrictlyAscending(t.postingList.entries)
    && forall k :: 0 <= k < |t.postingList.entries| ==> t.postingList.entries[k].ftd > 0
  }

  /** The posting list after one more occurrence of its term in document `d`:
      only the last entry is inspected; it is bumped when it is `d`'s entry,
      otherwise a new entry for `d` with frequency 1 is appended. */
  function Posted(es: seq<Entry>, d: nat): (r: seq<Entry>)
    ensures r != [] && r[|r| - 1].documentIndex == d
  {
    if es == [] then [Entry(d, 1)]
    else
      var last := es[|es| - 1];
      if last.documentIndex == d then es[..|es| - 1] + [last.(ftd := last.ftd + 1)]
      else es + [Entry(d, 1)]
  }

  /** A repeated occurrence in the same document changes only the last
      entry's frequency. */
  lemma {:induction false} RepeatBumpsLastEntry(es: seq<Entry>, d: nat)
    requires es != [] && es[|es| - 1].documentIndex == d
    ensures |Posted(es, d)| == |es|
    ensures Posted(es, d)[..|es| - 1] == es[..|es| - 1]
    ensures Posted(es, d)[|es| - 1] == Entry(d, es[|es| - 1].ftd + 1)
  {
  }

  /** A first occurrence in a new document appends `(d, 1)` and keeps the rest. */
  lemma {:induction false} NewDocumentAppendsEntry(es: seq<Entry>, d: nat)
    requires es == [] || es[|es| - 1].documentIndex != d
    ensures Posted(es, d) == es + [Entry(d, 1)]
  {
  }

  /** `InMemoryIndexBuilder::addTerm` on one term: the list is updated and the
      document counter goes up exactly when an entry is created. */
  function PostTerm(t: Term, d: nat): (r: Term)
    requires t.postingList.Pending?
    ensures r.text == t.text && r.postingList.Pending?
    ensures r.postingList.entries == Posted(t.postingList.entries, d)
    ensures |r.postingList.entries| == |t.postingList.entries| + (if r.documentNumber == t.documentNumber then 0 else 1)
    ensures r.documentNumber == t.documentNumber || r.documentNumber == t.documentNumber + 1
    ensures WellFormed(t) && (forall k :: 0 <= k < |t.postingList.entries| ==> t.postingList.entries[k].documentIndex <= d)
      ==> WellFormed(r)
  {
    var es := t.postingList.entries;
    if es != [] && es[|es| - 1].documentIndex == d then
      t.(postingList := Pending(Posted(es, d)))
    else
      Term(t.text, t.documentNumber + 1, Pending(Posted(es, d)))
  }

  /** Every term is well formed and mentions no document after `d`. */
  predicate WellFormedUpTo(dict: map<string, Term>, d: nat)
  {
    forall w :: w in dict ==>
      WellFormed(dict[w]) &&
      forall k :: 0 <= k < |dict[w].postingList.entries| ==> dict[w].postingList.entries[k].documentIndex <= d
  }

  /** The dictionary after `addTerm(token)` while the document table holds `d`
      documents: only `token`'s term changes, and it is inserted if absent. */
  function AddTerm(dict: map<string, Term>, token: string, d: nat): (r: map<string, Term>)
    requires AllPending(dict)
    ensures AllPending(r)
    ensures r.Keys == dict.Keys + {token}
    ensures forall w :: w in dict && w != token ==> r[w] == dict[w]
    ensures var es := r[token].postingList.entries; es != [] && es[|es| - 1].documentIndex == d
  {
    dict[token := PostTerm(Lookup(dict, token), d)]
  }

  /** One token keeps every term well formed. */
  lemma {:induction false} AddTermWellFormed(dict: map<string, Term>, token: string, d: nat)
    requires AllPending(dict) && WellFormedUpTo(dict, d)
    ensures WellFormedUpTo(AddTerm(dict, token, d), d)
  {
    var t := Lookup(dict, token);
    var r := AddTerm(dict, token, d);
    assert WellFormed(t) && forall k :: 0 <= k < |t.postingList.entries| ==> t.postingList.entries[k].documentIndex <= d;
    PostedWithin(t.postingList.entries, d);
    forall w | w in r
      ensures WellFormed(r[w])
      ensures forall k :: 0 <= k < |r[w].postingList.entries| ==> r[w].postingList.entries[k].documentIndex <= d
    {
      if w != token {
        assert r[w] == dict[w];
      }
    }
  }

  /** Posting in document `d` mentions no document after `d` when the list did not. */
  lemma {:induction false} PostedWithin(es: seq<Entry>, d: nat)
    requires forall k :: 0 <= k < |es| ==> es[k].documentIndex <= d
    ensures forall k :: 0 <= k < |Posted(es, d)| ==> Posted(es, d)[k].documentIndex <= d
  {
  }

  /** Indices never decrease, so a dictionary well formed up to `d0` stays so
      for every later document. */
  lemma {:induction false} WellFormedLater(dict: map<string, Term>, d0: nat, d: nat)
    requires d0 <= d && WellFormedUpTo(dict, d0)
    ensures WellFormedUpTo(dict, d)
  {
  }

  /** The tokens of document `d`, added one after the other. */
  function AddTokens(dict: map<string, Term>, tokens: seq<string>, d: nat): (r: map<string, Term>)
    requires AllPending(dict)
    ensures AllPending(r)
    decreases |tokens|
  {
    if tokens == [] then dict
    else AddTerm(AddTokens(dict, tokens[..|tokens| - 1], d), tokens[|tokens| - 1], d)
  }

  /** The tokens of document `d` keep every term well formed. */
  lemma {:induction false} AddTokensWellFormed(dict: map<string, Term>, tokens: seq<string>, d: nat)
    requires AllPending(dict) && WellFormedUpTo(dict, d)
    ensures WellFormedUpTo(AddTokens(dict, tokens, d), d)
    decreases |tokens|
  {
    if tokens != [] {
      var m := |tokens| - 1;
      AddTokensWellFormed(dict, tokens[..m], d);
      AddTermWellFormed(AddTokens(dict, tokens[..m], d), tokens[m], d);
    }
  }

  /** The token sequences of documents 0, 1, ..., each added under its own index. */
  function AddDocuments(dict: map<string, Term>, docs: seq<seq<string>>): (r: map<string, Term>)
    requires AllPending(dict)
    ensures AllPending(r)
    decreases |docs|
  {
    if docs == [] then dict
    else AddTokens(AddDocuments(dict, docs[..|docs| - 1]), docs[|docs| - 1], |docs| - 1)
  }

  /** How often `w` occurs in `tokens`. */
  function Occurrences(tokens: seq<string>, w: string): nat
    decreases |tokens|
  {
    if tokens == [] then 0
    else Occurrences(tokens[..|tokens| - 1], w) + (if tokens[|tokens| - 1] == w then 1 else 0)
  }

  /** The posting list of `w` by definition: one entry per document that
      contains it, in document order, carrying its number of occurrences. */
  function Reference(docs: seq<seq<string>>, w: string): seq<Entry>
    decreases |docs|
  {
    if docs == [] then []
    else
      var n := |docs| - 1;
      Reference(docs[..n], w) + (if Occurrences(docs[n], w) > 0 then [Entry(n, Occurrences(docs[n], w))] else [])
  }

  /** The entries of the reference list are the documents containing `w`,
      ascending, each with its occurrence count. */
  lemma {:induction false} ReferenceEntries(docs: seq<seq<string>>, w: string)
    ensures StrictlyAscending(Reference(docs, w))
    ensures forall k :: 0 <= k < |Reference(docs, w)| ==>
      && Reference(docs, w)[k].documentIndex < |docs|
      && Reference(docs, w)[k].ftd == Occurrences(docs[Reference(docs, w)[k].documentIndex], w)
      && Reference(docs, w)[k].ftd > 0
    decreases |docs|
  {
    if docs != [] {
      var n := |docs| - 1;
      ReferenceEntries(docs[..n], w);
      var prev := Reference(docs[..n], w);
      forall k | 0 <= k < |prev|
        ensures docs[prev[k].documentIndex] == docs[..n][prev[k].documentIndex]
      {
      }
    }
  }

  /** Every document that contains `w` has an entry in the reference list. */
  lemma {:induction false} ReferenceComplete(docs: seq<seq<string>>, w: string, d: nat)
    requires d < |docs| && Occurrences(docs[d], w) > 0
    ensures exists k :: 0 <= k < |Reference(docs, w)| && Reference(docs, w)[k].documentIndex == d
    decreases |docs|
  {
    var n := |docs| - 1;
    var prev := Reference(docs[..n], w);
    if d < n {
      assert docs[..n][d] == docs[d];
      ReferenceComplete(docs[..n], w, d);
      var k :| 0 <= k < |prev| && prev[k].documentIndex == d;
      assert Reference(docs, w)[k] == prev[k];
    } else {
      assert Reference(docs, w)[|prev|].documentIndex == d;
    }
  }

  /** The entries of `dict`'s term for `w` (none when absent). */
  function EntriesOf(dict: map<string, Term>, w: string): seq<Entry>
  {
    if w in dict && dict[w].postingList.Pending? then dict[w].postingList.entries else []
  }

  /** The document counter of `dict`'s term for `w` (zero when absent). */
  function CountOf(dict: map<string, Term>, w: string): nat
  {
    if w in dict then dict[w].documentNumber else 0
  }

  /** One token of document `d`: `w`'s entry for `d`, if any, is last and
      gains one occurrence when the token is `w`. */
  lemma {:induction false} AddTermEffect(dict: map<string, Term>, token: string, d: nat, w: string, e0: seq<Entry>, n: nat)
    requires AllPending(dict)
    requires forall k :: 0 <= k < |e0| ==> e0[k].documentIndex < d
    requires EntriesOf(dict, w) == e0 + (if n > 0 then [Entry(d, n)] else [])
    ensures var r := AddTerm(dict, token, d);
      var n' := n + (if token == w then 1 else 0);
      && EntriesOf(r, w) == e0 + (if n' > 0 then [Entry(d, n')] else [])
      && CountOf(r, w) == CountOf(dict, w) + (if n == 0 && n' > 0 then 1 else 0)
      && (w in r <==> w in dict || token == w)
      && (w in r ==> r[w].text == (if w in dict then dict[w].text else w))
  {
    var r := AddTerm(dict, token, d);
    if token != w {
      if w in dict {
        assert r[w] == dict[w];
      }
      assert EntriesOf(r, w) == EntriesOf(dict, w);
    } else {
      var t := Lookup(dict, w);
      var es := t.postingList.entries;
      assert es == EntriesOf(dict, w) && t.documentNumber == CountOf(dict, w);
      assert r[w] == PostTerm(t, d);
      if n > 0 {
        assert es[|es| - 1] == Entry(d, n);
        assert es[..|es| - 1] == e0;
        assert Posted(es, d) == e0 + [Entry(d, n + 1)];
      } else {
        assert es == e0;
        assert es == [] || es[|es| - 1].documentIndex < d;
        NewDocumentAppendsEntry(es, d);
      }
    }
  }

  /** Adding the tokens of document `d` gives `w` one new entry `(d, n)` when
      it occurs `n > 0` times in them, and leaves `w` alone otherwise. */
  lemma {:induction false} AddTokensEffect(dict: map<string, Term>, tokens: seq<string>, d: nat, w: string)
    requires AllPending(dict)
    requires forall k :: 0 <= k < |EntriesOf(dict, w)| ==> EntriesOf(dict, w)[k].documentIndex < d
    ensures var r := AddTokens(dict, tokens, d);
      var n := Occurrences(tokens, w);
      && EntriesOf(r, w) == EntriesOf(dict, w) + (if n > 0 then [Entry(d, n)] else [])
      && CountOf(r, w) == CountOf(dict, w) + (if n > 0 then 1 else 0)
      && (w in r <==> w in dict || n > 0)
      && (w in r ==> r[w].text == (if w in dict then dict[w].text else w))
    decreases |tokens|
  {
    if tokens == [] {
      assert EntriesOf(dict, w) + [] == EntriesOf(dict, w);
    } else {
      var m := |tokens| - 1;
      var before := AddTokens(dict, tokens[..m], d);
      assert AddTokens(dict, tokens, d) == AddTerm(before, tokens[m], d);
      assert Occurrences(tokens, w) == Occurrences(tokens[..m], w) + (if tokens[m] == w then 1 else 0);
      AddTokensEffect(dict, tokens[..m], d, w);
      AddTermEffect(before, tokens[m], d, w, EntriesOf(dict, w), Occurrences(tokens[..m], w));
    }
  }

  lemma {:induction false} ReferenceBelow(docs: seq<seq<string>>, w: string)
    ensures forall k :: 0 <= k < |Reference(docs, w)| ==> Reference(docs, w)[k].documentIndex < |docs|
  {
    ReferenceEntries(docs, w);
  }

  /** Indexing documents in order leaves, for every term absent at the start,
      exactly its reference posting list and a counter equal to its length. */
  lemma {:induction false} AddDocumentsEffect(dict: map<string, Term>, docs: seq<seq<string>>, w: string)
    requires AllPending(dict) && w !in dict
    ensures var r := AddDocuments(dict, docs);
      && EntriesOf(r, w) == Reference(docs, w)
      && CountOf(r, w) == |Reference(docs, w)|
      && (w in r <==> Reference(docs, w) != [])
      && (w in r ==> r[w].text == w)
    decreases |docs|
  {
    if docs != [] {
      var n := |docs| - 1;
      AddDocumentsEffect(dict, docs[..n], w);
      ReferenceBelow(docs[..n], w);
      AddTokensEffect(AddDocuments(dict, docs[..n]), docs[n], n, w);
    }
  }

  /** The posting lists built from an empty dictionary: a term is present
      exactly when some document contains it, and then its list is the
      reference list and its counter that list's length. */
  lemma {:induction false} IndexMatchesReference(docs: seq<seq<string>>, w: string)
    ensures var dict := AddDocuments(map[], docs);
      && (w in dict <==> Reference(docs, w) != [])
      && (w in dict ==> dict[w] == Term(w, |Reference(docs, w)|, Pending(Reference(docs, w))))
  {
    AddDocumentsEffect(map[], docs, w);
  }

  /** Every term built from an empty dictionary is well formed. */
  lemma {:induction false} AddDocumentsWellFormed(dict: map<string, Term>, docs: seq<seq<string>>)
    requires AllPending(dict) && WellFormedUpTo(dict, 0)
    ensures WellFormedUpTo(AddDocuments(dict, docs), if docs == [] then 0 else |docs| - 1)
    decreases |docs|
  {
    if docs != [] {
      var n := |docs| - 1;
      AddDocumentsWellFormed(dict, docs[..n]);
      WellFormedLater(AddDocuments(dict, docs[..n]), if n == 0 then 0 else n - 1, n);
      AddTokensWellFormed(AddDocuments(dict, docs[..n]), docs[n], n);
    }
  }
}
