/**
  `build_index`: turns the documents of the directory scan into text chunks,
  one metadata entry per chunk, and one embedding vector per chunk, and returns
  the sorted names of the files that contributed text. The text splitter and
  the embedding model are uninterpreted functions given as parameters; the
  FAISS index is the sequence of its vectors in insertion order.
 */
module VectorStore {
  import opened Wrappers
  import opened PyStr
  import opened PosixPath
  import opened Sorting
  import opened SeqLemmas
  import opened FileProcessor

  /** One metadata entry: `{'source': filepath, 'content': chunk}`. */
  datatype Chunk = Chunk(source: string, content: string)

  /** An embedding vector (float32 in the source). */
  type Embedding = seq<real>

  /** A flat FAISS index: its vectors, position `i` holding the `i`-th added. */
  datatype VectorIndex = VectorIndex(vectors: seq<Embedding>)

  /** What `build_index` writes: the index file and the pickled metadata. */
  datatype Store = Store(index: VectorIndex, metadata: seq<Chunk>)

  /** The metadata entries of one document: one per piece, in split order. */
  function DocChunks(path: string, pieces: seq<string>): (r: seq<Chunk>)
    ensures |r| == |pieces|
    ensures forall j :: 0 <= j < |r| ==> r[j].source == path && r[j].content == pieces[j]
  {
    seq(|pieces|, j requires 0 <= j < |pieces| => Chunk(path, pieces[j]))
  }

  /** The metadata of a whole scan: the chunks of every document whose text
      is not blank, document by document. The file of every entry is among
      the processed files. */
  function ChunksOf(docs: seq<Document>, split: string -> seq<string>): (r: seq<Chunk>)
    ensures forall c :: c in r ==> Basename(c.source) in ProcessedNames(docs)
  {
    if docs == [] then []
    else
      var d := docs[|docs| - 1];
      ChunksOf(docs[..|docs| - 1], split) + (if IsBlank(d.text) then [] else DocChunks(d.path, split(d.text)))
  }

  /** `processed_files`: the basenames of the documents whose text is not
      blank; there are at most as many as documents. */
  function ProcessedNames(docs: seq<Document>): (r: set<string>)
    ensures |r| <= |docs|
  {
    if docs == [] then {}
    else
      var d := docs[|docs| - 1];
      ProcessedNames(docs[..|docs| - 1]) + (if IsBlank(d.text) then {} else {Basename(d.path)})
  }

  /** The vectors of the chunk texts, in chunk order. */
  function Embed(texts: seq<string>, embed: string -> Embedding): (r: seq<Embedding>)
    ensures |r| == |texts|
    ensures forall j :: 0 <= j < |r| ==> r[j] == embed(texts[j])
  {
    seq(|texts|, j requires 0 <= j < |texts| => embed(texts[j]))
  }

  function Contents(chunks: seq<Chunk>): (r: seq<string>)
    ensures |r| == |chunks|
    ensures forall j :: 0 <= j < |r| ==> r[j] == chunks[j].content
  {
    seq(|chunks|, j requires 0 <= j < |chunks| => chunks[j].content)
  }

  lemma ContentsSnoc(chunks: seq<Chunk>, c: Chunk)
    ensures Contents(chunks + [c]) == Contents(chunks) + [c.content]
  {
    var a := Contents(chunks + [c]);
    var b := Contents(chunks) + [c.content];
    forall k | 0 <= k < |a|
      ensures a[k] == b[k]
    {
      if k < |chunks| {
        assert (chunks + [c])[k] == chunks[k];
      }
    }
  }

  lemma DocChunksSnoc(path: string, pieces: seq<string>, j: nat)
    requires j < |pieces|
    ensures DocChunks(path, pieces[..j + 1]) == DocChunks(path, pieces[..j]) + [Chunk(path, pieces[j])]
  {
    var a := DocChunks(path, pieces[..j + 1]);
    var b := DocChunks(path, pieces[..j]) + [Chunk(path, pieces[j])];
    assert |a| == |b|;
    forall k | 0 <= k < |a|
      ensures a[k] == b[k]
    {
      if k < j {
        assert b[k] == DocChunks(path, pieces[..j])[k];
      }
    }
  }

  lemma ChunksOfSnoc(docs: seq<Document>, d: Document, split: string -> seq<string>)
    ensures ChunksOf(docs + [d], split)
            == ChunksOf(docs, split) + (if IsBlank(d.text) then [] else DocChunks(d.path, split(d.text)))
    ensures ProcessedNames(docs + [d])
            == ProcessedNames(docs) + (if IsBlank(d.text) then {} else {Basename(d.path)})
  {
    assert (docs + [d])[..|docs|] == docs;
  }

  /** A document whose text is empty or whitespace-only contributes no chunk,
      no metadata entry and no file name. */
  lemma BlankContributesNothing(docs: seq<Document>, d: Document, split: string -> seq<string>)
    requires IsBlank(d.text)
    ensures ChunksOf(docs + [d], split) == ChunksOf(docs, split)
    ensures ProcessedNames(docs + [d]) == ProcessedNames(docs)
  {
    ChunksOfSnoc(docs, d, split);
    AppendEmpty(ChunksOf(docs, split));
  }

  /** Chunks are ordered by document: the chunks of a concatenation of scans
      are the chunks of the first followed by those of the second. */
  lemma {:induction false} ChunksOfAppend(a: seq<Document>, b: seq<Document>, split: string -> seq<string>)
    ensures ChunksOf(a + b, split) == ChunksOf(a, split) + ChunksOf(b, split)
    decreases |b|
  {
    if b == [] {
      assert a + b == a;
      AppendEmpty(ChunksOf(a, split));
    } else {
      var init := b[..|b| - 1];
      var d := b[|b| - 1];
      var tail := if IsBlank(d.text) then [] else DocChunks(d.path, split(d.text));
      assert a + b == (a + init) + [d];
      ChunksOfAppend(a, init, split);
      ChunksOfSnoc(a + init, d, split);
      assert b == init + [d];
      ChunksOfSnoc(init, d, split);
      AppendAssoc(ChunksOf(a, split), ChunksOf(init, split), tail);
    }
  }

  /** Where each metadata entry comes from: an entry is a piece of the split
      text of a document with non-blank text, and its source is that
      document's full path; every such piece has its entry. */
  lemma {:induction false} ChunkOrigin(docs: seq<Document>, split: string -> seq<string>, c: Chunk)
    ensures c in ChunksOf(docs, split) <==>
              exists d :: d in docs && !IsBlank(d.text) && c.source == d.path && c.content in split(d.text)
  {
    if docs != [] {
      var init := docs[..|docs| - 1];
      var d := docs[|docs| - 1];
      assert docs == init + [d];
      ChunkOrigin(init, split, c);
      var tail := if IsBlank(d.text) then [] else DocChunks(d.path, split(d.text));
      assert ChunksOf(docs, split) == ChunksOf(init, split) + tail;
      TailOrigin(d, split, c);
      assert c in ChunksOf(docs, split) <==> c in ChunksOf(init, split) || c in tail;
    }
  }

  lemma TailOrigin(d: Document, split: string -> seq<string>, c: Chunk)
    ensures c in (if IsBlank(d.text) then [] else DocChunks(d.path, split(d.text))) <==>
              !IsBlank(d.text) && c.source == d.path && c.content in split(d.text)
  {
    var pieces := split(d.text);
    if !IsBlank(d.text) && c in DocChunks(d.path, pieces) {
      var j :| 0 <= j < |pieces| && DocChunks(d.path, pieces)[j] == c;
      assert c.content == pieces[j];
    }
    if !IsBlank(d.text) && c.source == d.path && c.content in pieces {
      var j :| 0 <= j < |pieces| && pieces[j] == c.content;
      assert DocChunks(d.path, pieces)[j] == c;
    }
  }

  /** A name is a processed file exactly when it is the basename of a
      document whose text is not blank. */
  lemma {:induction false} ProcessedNamesIff(docs: seq<Document>, name: string)
    ensures name in ProcessedNames(docs) <==> exists d :: d in docs && !IsBlank(d.text) && Basename(d.path) == name
  {
    if docs != [] {
      var init := docs[..|docs| - 1];
      var d := docs[|docs| - 1];
      assert docs == init + [d];
      ProcessedNamesIff(init, name);
    }
  }

  /** The inner loop of `build_index`: one metadata entry per piece, in split
      order, each naming the file's full path. */
  method AppendEntries(metadata: seq<Chunk>, filepath: string, chunks: seq<string>)
    returns (r: seq<Chunk>)
    ensures r == metadata + DocChunks(filepath, chunks)
    ensures Contents(r) == Contents(metadata) + chunks
  {
    r := metadata;
    var j := 0;
    while j < |chunks|
      invariant 0 <= j <= |chunks|
      invariant r == metadata + DocChunks(filepath, chunks[..j])
      invariant Contents(r) == Contents(metadata) + chunks[..j]
    {
      SnocPrefix(chunks, j);
      ContentsSnoc(r, Chunk(filepath, chunks[j]));
      AppendAssoc(Contents(metadata), chunks[..j], [chunks[j]]);
      DocChunksSnoc(filepath, chunks, j);
      AppendAssoc(metadata, DocChunks(filepath, chunks[..j]), [Chunk(filepath, chunks[j])]);
      r := r + [Chunk(filepath, chunks[j])];
      j := j + 1;
    }
    assert chunks[..j] == chunks;
  }

  /** The accumulation loop of `build_index`: over the scanned documents in
      order, skipping blank texts, it records each file's basename, extends
      `all_chunks` with the file's pieces and appends one metadata entry per
      piece, so that entry `k` always describes chunk `k`. */
  method Accumulate(docs: seq<Document>, split: string -> seq<string>)
    returns (allChunks: seq<string>, metadata: seq<Chunk>, processed: set<string>)
    ensures metadata == ChunksOf(docs, split)
    ensures processed == ProcessedNames(docs)
    ensures allChunks == Contents(metadata)
  {
    allChunks := [];
    metadata := [];
    processed := {};
    var i := 0;
    while i < |docs|
      invariant 0 <= i <= |docs|
      invariant metadata == ChunksOf(docs[..i], split)
      invariant processed == ProcessedNames(docs[..i])
      invariant allChunks == Contents(metadata)
    {
      var filepath := docs[i].path;
      var text := docs[i].text;
      SnocPrefix(docs, i);
      ChunksOfSnoc(docs[..i], docs[i], split);
      if Strip(text) == [] {
        AppendEmpty(metadata);
        i := i + 1;
        continue;
      }
      processed := processed + {Basename(filepath)};
      var chunks := split(text);
      allChunks := allChunks + chunks;
      metadata := AppendEntries(metadata, filepath, chunks);
      i := i + 1;
    }
    assert docs[..i] == docs;
  }

  /** `build_index(directory)`, given the walk of `directory`, the splitter
      and the embedder. Returns the sorted processed file names and the index
      and metadata it writes; `None` when no chunk was produced, in which case
      nothing is embedded or written and the list is empty. */
  method BuildIndex(walk: seq<WalkDir>, split: string -> seq<string>, embed: string -> Embedding)
    returns (files: seq<string>, written: Option<Store>)
    ensures var docs := Kept(Candidates(walk));
            ChunksOf(docs, split) == [] ==> files == [] && written == None
    ensures var docs := Kept(Candidates(walk));
            var chunks := ChunksOf(docs, split);
            chunks != [] ==>
              && files == SortedList(ProcessedNames(docs))
              && written == Some(Store(VectorIndex(Embed(Contents(chunks), embed)), chunks))
    ensures written.Some? ==>
              && |written.value.index.vectors| == |written.value.metadata|
              && forall i :: 0 <= i < |written.value.metadata| ==>
                   written.value.index.vectors[i] == embed(written.value.metadata[i].content)
  {
    var docs := ProcessDirectory(walk);
    var allChunks, metadata, processed := Accumulate(docs, split);
    if allChunks == [] {
      files := [];
      written := None;
      return;
    }
    var vectors := Embed(allChunks, embed);
    written := Some(Store(VectorIndex(vectors), metadata));
    files := SortedList(processed);
  }

  /** What the returned list means: sorted ascending with no duplicates, and a
      name is listed exactly when a scanned document with non-blank text has
      that basename. */
  lemma ListedFilesIff(docs: seq<Document>, name: string)
    ensures StrictlySorted(SortedList(ProcessedNames(docs)))
    ensures name in SortedList(ProcessedNames(docs)) <==>
              exists d :: d in docs && !IsBlank(d.text) && Basename(d.path) == name
  {
    ProcessedNamesIff(docs, name);
  }
}
