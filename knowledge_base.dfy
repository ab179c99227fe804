/**
 * The salon knowledge base: a flat L2 vector index and a parallel metadata list
 * of `{"text": ...}` entries, aligned by position, persisted after every insertion.
 * The embedding model and the nearest-neighbour search are parameters (`embed`,
 * `search`); what is modelled is the bookkeeping around them.
 */
module KnowledgeBase {
  import opened Wrappers
  import opened Text

  /** An embedding row as the index stores it; its numbers are never inspected here. */
  type Vector = seq<real>

  /** One element of the metadata list, the JSON object `{"text": text}`. */
  datatype Entry = Entry(text: string)

  /** A flat (exhaustive-scan) L2 index: its dimension and its rows in insertion order. */
  datatype FlatIndex = FlatIndex(dim: nat, vectors: seq<Vector>) {
    /** The index only ever holds rows of its own dimension. */
    predicate WellFormed() {
      forall i :: 0 <= i < |vectors| ==> |vectors[i]| == dim
    }

    /** The number of rows (`index.ntotal`). */
    function NTotal(): nat {
      |vectors|
    }
  }

  /** Nearest-neighbour search: the index, the query embedding and `top_k` give the row numbers found (`-1` pads a short answer). */
  type Search = (FlatIndex, Vector, nat) -> seq<int>

  /** The size of the MiniLM embeddings a fresh index is created for. */
  const EmbeddingDim: nat := 384

  /** `top_k` when the caller gives none. */
  const DefaultTopK: nat := 50

  // ---------------------------------------------------------------- tokenizer

  /** `vocab.get("[UNK]", 1)`. */
  function UnkTokenId(vocab: map<string, int>): int {
    if "[UNK]" in vocab then vocab["[UNK]"] else 1
  }

  /** `vocab.get(tok, unk_token_id)`. */
  function TokenId(vocab: map<string, int>, token: string): int {
    if token in vocab then vocab[token] else UnkTokenId(vocab)
  }

  /** `tokenize(text)`: one id per whitespace-separated token of `text.lower()`, in order. */
  function Tokenize(vocab: map<string, int>, text: string): seq<int> {
    var tokens := Split(Lower(text));
    seq(|tokens|, i requires 0 <= i < |tokens| => TokenId(vocab, tokens[i]))
  }

  lemma {:induction false} JoinNoUpper(words: seq<string>, sep: string)
    requires NoUpper(sep)
    requires forall i :: 0 <= i < |words| ==> NoUpper(words[i])
    ensures NoUpper(Join(words, sep))
    decreases |words|
  {
    if |words| > 1 {
      JoinNoUpper(words[1..], sep);
      var rest := Join(words[1..], sep);
      var s := words[0] + sep + rest;
      forall i | 0 <= i < |s| ensures !IsUpper(s[i]) {
        if i < |words[0]| {
          assert s[i] == words[0][i];
        } else if i < |words[0]| + |sep| {
          assert s[i] == sep[i - |words[0]|];
        } else {
          assert s[i] == rest[i - |words[0]| - |sep|];
        }
      }
    }
  }

  /** Tokenizing lower-case words joined by single spaces looks each word up in turn. */
  lemma TokenizeWords(vocab: map<string, int>, words: seq<string>)
    requires forall i :: 0 <= i < |words| ==> words[i] != [] && NoSpace(words[i]) && NoUpper(words[i])
    ensures Tokenize(vocab, Join(words, " ")) == seq(|words|, i requires 0 <= i < |words| => TokenId(vocab, words[i]))
  {
    JoinNoUpper(words, " ");
    LowerOfLowercase(Join(words, " "));
    SplitJoin(words);
  }

  /** Tokenizing does not see the case of ASCII letters. */
  lemma TokenizeIgnoresCase(vocab: map<string, int>, text: string)
    ensures Tokenize(vocab, Lower(text)) == Tokenize(vocab, text)
  {
    LowerIdempotent(text);
  }

  /** A token missing from the vocabulary becomes `vocab["[UNK]"]`, or 1 when that is missing too. */
  lemma UnknownToken(vocab: map<string, int>, text: string, i: nat)
    requires i < |Split(Lower(text))| && Split(Lower(text))[i] !in vocab
    ensures "[UNK]" in vocab ==> Tokenize(vocab, text)[i] == vocab["[UNK]"]
    ensures "[UNK]" !in vocab ==> Tokenize(vocab, text)[i] == 1
  {
  }

  // ---------------------------------------------------------------- retrieval

  /** The texts of the hits that name a row of `meta`, in hit order; others (such as `-1`) are skipped. */
  function ContextTexts(meta: seq<Entry>, hits: seq<int>): seq<string>
    decreases |hits|
  {
    if hits == [] then []
    else
      var i := hits[|hits| - 1];
      ContextTexts(meta, hits[..|hits| - 1]) + (if 0 <= i < |meta| then [meta[i].text] else [])
  }

  /** Results follow the order of the hits: the hits of `a` come first. */
  lemma {:induction false} ContextTextsAppend(meta: seq<Entry>, a: seq<int>, b: seq<int>)
    ensures ContextTexts(meta, a + b) == ContextTexts(meta, a) + ContextTexts(meta, b)
    decreases |b|
  {
    if b != [] {
      var b' := b[..|b| - 1];
      assert (a + b)[..|a + b| - 1] == a + b';
      ContextTextsAppend(meta, a, b');
    } else {
      assert a + b == a;
    }
  }

  /** An out-of-range hit contributes nothing. */
  lemma SkipsOutOfRange(meta: seq<Entry>, a: seq<int>, h: int, b: seq<int>)
    requires h < 0 || h >= |meta|
    ensures ContextTexts(meta, a + [h] + b) == ContextTexts(meta, a + b)
  {
    assert [h][..0] == [];
    assert ContextTexts(meta, [h]) == [];
    ContextTextsAppend(meta, a, [h]);
    ContextTextsAppend(meta, a + [h], b);
    ContextTextsAppend(meta, a, b);
  }

  /** There are never more results than hits, and exactly one per hit when every hit is in range. */
  lemma {:induction false} ContextTextsLength(meta: seq<Entry>, hits: seq<int>)
    ensures |ContextTexts(meta, hits)| <= |hits|
    ensures (forall k :: 0 <= k < |hits| ==> 0 <= hits[k] < |meta|) ==>
      |ContextTexts(meta, hits)| == |hits| &&
      forall k :: 0 <= k < |hits| ==> ContextTexts(meta, hits)[k] == meta[hits[k]].text
    decreases |hits|
  {
    if hits != [] {
      var front := hits[..|hits| - 1];
      ContextTextsLength(meta, front);
      if forall k :: 0 <= k < |hits| ==> 0 <= hits[k] < |meta| {
        assert forall k :: 0 <= k < |front| ==> front[k] == hits[k];
      }
    }
  }

  /** Every result is the text of some stored entry whose row number the search returned. */
  lemma {:induction false} ContextTextsSound(meta: seq<Entry>, hits: seq<int>)
    ensures forall t :: t in ContextTexts(meta, hits) ==>
      exists i :: 0 <= i < |meta| && i in hits && meta[i].text == t
    decreases |hits|
  {
    if hits != [] {
      var front := hits[..|hits| - 1];
      ContextTextsSound(meta, front);
      var last := hits[|hits| - 1];
      forall t | t in ContextTexts(meta, hits)
        ensures exists i :: 0 <= i < |meta| && i in hits && meta[i].text == t
      {
        if t in ContextTexts(meta, front) {
          var i :| 0 <= i < |meta| && i in front && meta[i].text == t;
          assert i in hits;
        } else {
          assert 0 <= last < |meta| && meta[last].text == t;
        }
      }
    }
  }

  // ---------------------------------------------------------------- the store

  /** The documents `seed_knowledge` inserts, in order. */
  const SeedDocs: seq<string> := [
    "Basic haircut for men costs $20.",
    "Haircut and styling for women starts at $30.",
    "Hair coloring services range from $50 to $120 depending on length.",
    "Hair wash and scalp massage costs $10.",
    "Salon is open from 9 AM to 6 PM, Monday through Saturday.",
    "Located at 123 Main Street, Springfield."
  ]

  function Entries(texts: seq<string>): (es: seq<Entry>)
    ensures |es| == |texts| && forall i :: 0 <= i < |texts| ==> es[i] == Entry(texts[i])
  {
    seq(|texts|, i requires 0 <= i < |texts| => Entry(texts[i]))
  }

  function Embeddings(texts: seq<string>, embed: string -> Vector): (vs: seq<Vector>)
    ensures |vs| == |texts| && forall i :: 0 <= i < |texts| ==> vs[i] == embed(texts[i])
  {
    seq(|texts|, i requires 0 <= i < |texts| => embed(texts[i]))
  }

  /** The in-memory index and metadata, and the two files they are persisted to. */
  class Store {
    var index: FlatIndex
    var metadata: seq<Entry>
    /** The contents of `faiss_index.bin`, if it exists. */
    var indexFile: Option<FlatIndex>
    /** The contents of `faiss_metadata.json`, if it exists. */
    var metadataFile: Option<seq<Entry>>

    ghost predicate Valid()
      reads this
    {
      index.WellFormed()
    }

    /** Row `i` of the index is the embedding of `metadata[i]`: one row per entry. */
    ghost predicate Aligned()
      reads this
    {
      index.NTotal() == |metadata|
    }

    /** Both files hold exactly what is in memory. */
    ghost predicate Persisted()
      reads this
    {
      indexFile == Some(index) && metadataFile == Some(metadata)
    }

    /** Start-up: load both files when both exist, otherwise start empty with dimension 384. */
    constructor Load(storedIndex: Option<FlatIndex>, storedMetadata: Option<seq<Entry>>)
      requires storedIndex.Some? ==> storedIndex.value.WellFormed()
      ensures Valid()
      ensures storedIndex.Some? && storedMetadata.Some? ==>
        index == storedIndex.value && metadata == storedMetadata.value
      ensures !(storedIndex.Some? && storedMetadata.Some?) ==>
        index == FlatIndex(EmbeddingDim, []) && metadata == [] && Aligned()
      ensures indexFile == storedIndex && metadataFile == storedMetadata
    {
      indexFile, metadataFile := storedIndex, storedMetadata;
      if storedIndex.Some? && storedMetadata.Some? {
        index, metadata := storedIndex.value, storedMetadata.value;
      } else {
        index, metadata := FlatIndex(EmbeddingDim, []), [];
      }
    }

    /** `persist_index`: rewrite both files from memory. */
    method PersistIndex()
      modifies this
      ensures Persisted()
      ensures index == old(index) && metadata == old(metadata)
    {
      indexFile, metadataFile := Some(index), Some(metadata);
    }

    /** `add_document`: one index row and one metadata entry at the end, then persist. */
    method AddDocument(text: string, embed: string -> Vector)
      requires Valid() && |embed(text)| == index.dim
      modifies this
      ensures Valid() && Persisted()
      ensures index == FlatIndex(old(index.dim), old(index.vectors) + [embed(text)])
      ensures metadata == old(metadata) + [Entry(text)]
      ensures old(Aligned()) ==> Aligned()
    {
      var emb := embed(text);
      index := index.(vectors := index.vectors + [emb]);
      metadata := metadata + [Entry(text)];
      PersistIndex();
    }

    /** What `query_context(query, topK)` returns: nothing for an empty store, else the texts of the search hits. */
    function Retrieve(query: string, topK: nat, embed: string -> Vector, search: Search): seq<string>
      reads this
    {
      if |metadata| == 0 then [] else ContextTexts(metadata, search(index, embed(query), topK))
    }

    /** `query_context`: search, then map the in-range row numbers back to their texts. */
    method QueryContext(query: string, topK: nat, embed: string -> Vector, search: Search)
      returns (results: seq<string>)
      ensures results == Retrieve(query, topK, embed, search)
      ensures |metadata| == 0 ==> results == []
    {
      if |metadata| == 0 {
        return [];
      }
      var hits := search(index, embed(query), topK);
      results := [];
      var k := 0;
      while k < |hits|
        invariant 0 <= k <= |hits|
        invariant results == ContextTexts(metadata, hits[..k])
      {
        var i := hits[k];
        assert hits[..k + 1][..k] == hits[..k];
        if 0 <= i < |metadata| {
          results := results + [metadata[i].text];
        }
        k := k + 1;
      }
      assert hits[..k] == hits;
    }

    /** `seed_knowledge`: add the six sample documents in order. */
    method SeedKnowledge(embed: string -> Vector)
      requires Valid()
      requires forall i :: 0 <= i < |SeedDocs| ==> |embed(SeedDocs[i])| == index.dim
      modifies this
      ensures Valid() && Persisted()
      ensures metadata == old(metadata) + Entries(SeedDocs)
      ensures index == FlatIndex(old(index.dim), old(index.vectors) + Embeddings(SeedDocs, embed))
      ensures old(Aligned()) ==> Aligned()
    {
      for n := 0 to |SeedDocs|
        invariant Valid() && index.dim == old(index.dim)
        invariant metadata == old(metadata) + Entries(SeedDocs[..n])
        invariant index.vectors == old(index.vectors) + Embeddings(SeedDocs[..n], embed)
        invariant n > 0 ==> Persisted()
        invariant old(Aligned()) ==> Aligned()
      {
        AddDocument(SeedDocs[n], embed);
        assert SeedDocs[..n + 1] == SeedDocs[..n] + [SeedDocs[n]];
        assert Entries(SeedDocs[..n + 1]) == Entries(SeedDocs[..n]) + [Entry(SeedDocs[n])];
        assert Embeddings(SeedDocs[..n + 1], embed) == Embeddings(SeedDocs[..n], embed) + [embed(SeedDocs[n])];
      }
      assert SeedDocs[..|SeedDocs|] == SeedDocs;
    }
  }

  /** Search returns at most `top_k` row numbers, so retrieval returns at most `top_k` texts. */
  lemma RetrieveAtMostTopK(kb: Store, query: string, topK: nat, embed: string -> Vector, search: Search)
    requires |search(kb.index, embed(query), topK)| <= topK
    ensures |kb.Retrieve(query, topK, embed, search)| <= topK
  {
    if |kb.metadata| > 0 {
      ContextTextsLength(kb.metadata, search(kb.index, embed(query), topK));
    }
  }

  /** After seeding an empty store, a search whose best hit is row 0 puts the men's haircut price first. */
  lemma SeededHaircutFirst(meta: seq<Entry>, hits: seq<int>)
    requires meta == Entries(SeedDocs) && hits != [] && hits[0] == 0
    ensures ContextTexts(meta, hits) != [] && ContextTexts(meta, hits)[0] == "Basic haircut for men costs $20."
  {
    assert meta[0].text == SeedDocs[0];
    ContextTextsAppend(meta, [hits[0]], hits[1..]);
    assert [hits[0]] + hits[1..] == hits;
    assert [hits[0]][..0] == [];
  }
}
