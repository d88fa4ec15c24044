/**
  The HTTP endpoints. `ml_models` is the `models` map of an `Api` object; the
  lifespan hook fills it with a fresh `RAGSystem`, `/search` and
  `/indexed-files` read the system stored under `"rag_system"`, and
  `/reindex` rebuilds the index and, on success only, replaces that system.
  An exception no handler catches becomes FastAPI's plain 500 response.
 */
module Api {
  import opened Wrappers
  import opened PyStr
  import opened PosixPath
  import opened Sorting
  import opened SeqLemmas
  import opened FileProcessor
  import opened VectorStore
  import opened QaSystem

  /** The number of neighbours `/search` asks for when the client leaves
      `k` out. */
  const DefaultK: int := 4

  /** A request body of `/search`: `SearchQuery(query)` has `k` = `DefaultK`. */
  datatype SearchQuery = SearchQuery(query: string, k: int := DefaultK)

  /** An endpoint's reply: a response body, or an error status with its detail. */
  datatype HttpResult<+T> = Respond(value: T) | HttpError(status: int, detail: string)

  datatype ReindexResponse = ReindexResponse(message: string, indexedFiles: seq<string>)

  const SystemKey: string := "rag_system"
  const EmptyIndexAnswer: string :=
    "The search index is empty. Please use the sidebar to re-index a directory first."
  const InternalError: string := "Internal Server Error"
  const NotFoundPrefix: string := "404: no proccessable files were found in directory: "
  const ReindexPrefix: string := "Successfully re-indexed "
  const ReindexSuffix: string := " files."

  /** The reply `/search` sends for what `ask` yields: the response itself,
      or, for an exception, FastAPI's plain 500. */
  function ReplyOf(a: Result<Response, string>): (r: HttpResult<Response>)
    ensures a.Success? ==> r == Respond(a.value)
    ensures a.Failure? ==> r == HttpError(500, InternalError)
  {
    if a.Success? then Respond(a.value) else HttpError(500, InternalError)
  }

  /** `get_indexed_files`'s list for `metadata`: the basenames of the
      distinct source paths, sorted, each once. */
  function IndexedFileNames(metadata: seq<Chunk>): (r: seq<string>)
    ensures StrictlySorted(r)
    ensures forall name :: name in r <==> exists c :: c in metadata && Basename(c.source) == name
  {
    var paths := set c | c in metadata :: c.source;
    var names := set p | p in paths :: Basename(p);
    SortedList(names)
  }

  /** The 500 detail of an empty re-index: Starlette's `str` of the 404
      raised inside the `try`. */
  function NotFoundDetail(directory: string): (r: string)
    ensures StartsWith(r, NotFoundPrefix)
    ensures r[|NotFoundPrefix|..] == directory
  {
    PrefixOfAppend(NotFoundPrefix, directory, |NotFoundPrefix|);
    NotFoundPrefix + directory
  }

  /** The success message of `/reindex` for `n` files: the fixed prefix, the
      decimal numeral of `n` without leading zero, and the fixed suffix. */
  function ReindexMessage(n: nat): (m: string)
    ensures |ReindexPrefix| + |ReindexSuffix| < |m|
    ensures StartsWith(m, ReindexPrefix) && m[|m| - |ReindexSuffix|..] == ReindexSuffix
    ensures var digits := m[|ReindexPrefix|..|m| - |ReindexSuffix|];
            IsDigits(digits) && DecimalValue(digits) == n
    ensures m[|ReindexPrefix|] == '0' ==> n == 0
  {
    var d := NatToString(n);
    var m := ReindexPrefix + NatToString(n) + ReindexSuffix;
    assert m == ReindexPrefix + (d + ReindexSuffix);
    PrefixOfAppend(ReindexPrefix, d + ReindexSuffix, |ReindexPrefix|);
    assert m[|ReindexPrefix|..|m| - |ReindexSuffix|] == d;
    NatToStringRoundTrip(n);
    m
  }

  /** The files `get_indexed_files` would list for the metadata a build writes
      are among the files that build reports. */
  lemma IndexedFilesOfBuild(docs: seq<Document>, split: string -> seq<string>)
    ensures forall name :: name in IndexedFileNames(ChunksOf(docs, split)) ==> name in SortedList(ProcessedNames(docs))
  {
  }

  /** A build that produced a chunk reports at least one file, so only a build
      with no chunk reaches the not-found path. */
  lemma FilesOfNonEmptyBuild(docs: seq<Document>, split: string -> seq<string>)
    requires ChunksOf(docs, split) != []
    ensures SortedList(ProcessedNames(docs)) != []
  {
    var c := ChunksOf(docs, split)[0];
    assert Basename(c.source) in ProcessedNames(docs);
  }

  class Api {
    var models: map<string, RagSystem>

    /** The lifespan hook: `ml_models["rag_system"] = RAGSystem()`. */
    constructor(saved: SavedState, embedderLoads: bool)
      ensures models.Keys == {SystemKey}
      ensures fresh(models[SystemKey])
      ensures LoadedFrom(saved, models[SystemKey].index, models[SystemKey].metadata)
      ensures models[SystemKey].embedderLoaded == embedderLoads
    {
      var system := new RagSystem(saved, embedderLoads);
      models := map[SystemKey := system];
    }

    /** `POST /search`. With no system stored, reading its index fails (500);
        with no index or no metadata the fixed empty-index answer comes back
        and `ask` is not called; otherwise the reply is what `ask` yields. */
    method Search(q: SearchQuery, neighbours: seq<int>, chat: string -> Result<string, string>)
      returns (r: HttpResult<Response>)
      requires SystemKey in models ==>
                 var s := models[SystemKey];
                 s.index.Some? && s.metadata != [] && !IsBlank(q.query) && s.embedderLoaded ==>
                   |neighbours| == q.k && forall j :: 0 <= j < |neighbours| ==> 0 <= neighbours[j] < |s.metadata|
      ensures SystemKey !in models ==> r == HttpError(500, InternalError)
      ensures SystemKey in models && (models[SystemKey].index.None? || models[SystemKey].metadata == []) ==>
                r == Respond(Response(EmptyIndexAnswer, []))
      ensures SystemKey in models && models[SystemKey].index.Some? && models[SystemKey].metadata != [] ==>
                var s := models[SystemKey];
                exists a :: Answers(s.index, s.metadata, s.embedderLoaded, q.query, neighbours, chat, a) && r == ReplyOf(a)
    {
      if SystemKey !in models {
        return HttpError(500, InternalError);
      }
      var system := models[SystemKey];
      if system.index.None? || system.metadata == [] {
        return Respond(Response(EmptyIndexAnswer, []));
      }
      var a := system.Ask(q.query, q.k, neighbours, chat);
      r := ReplyOf(a);
    }

    /** `GET /indexed-files`. */
    method IndexedFiles() returns (r: HttpResult<seq<string>>)
      ensures SystemKey !in models ==> r == HttpError(500, InternalError)
      ensures SystemKey in models ==> r == Respond(IndexedFileNames(models[SystemKey].metadata))
    {
      if SystemKey !in models {
        return HttpError(500, InternalError);
      }
      var system := models[SystemKey];
      r := Respond(IndexedFileNames(system.metadata));
    }

    /** `POST /reindex`. `buildRaises` is the message of an exception the
        embedding model or the index writes raise inside `build_index`, if
        any; `saved` and `embedderLoads` are what the new `RAGSystem` finds.
        Both failures answer 500 and keep the stored system; success stores a
        fresh system under `"rag_system"` and leaves every other entry. */
    method Reindex(
      directory: string, walk: seq<WalkDir>, split: string -> seq<string>, embed: string -> Embedding,
      buildRaises: Option<string>, saved: SavedState, embedderLoads: bool)
      returns (r: HttpResult<ReindexResponse>)
      modifies this
      ensures buildRaises.Some? ==> r == HttpError(500, buildRaises.value) && models == old(models)
      ensures buildRaises.None? && ChunksOf(Kept(Candidates(walk)), split) == [] ==>
                r == HttpError(500, NotFoundDetail(directory)) && models == old(models)
      ensures buildRaises.None? && ChunksOf(Kept(Candidates(walk)), split) != [] ==>
                var files := SortedList(ProcessedNames(Kept(Candidates(walk))));
                && r == Respond(ReindexResponse(ReindexMessage(|files|), files))
                && SystemKey in models
                && models == old(models)[SystemKey := models[SystemKey]]
                && fresh(models[SystemKey])
                && LoadedFrom(saved, models[SystemKey].index, models[SystemKey].metadata)
                && models[SystemKey].embedderLoaded == embedderLoads
    {
      if buildRaises.Some? {
        return HttpError(500, buildRaises.value);
      }
      var files, written := BuildIndex(walk, split, embed);
      ghost var docs := Kept(Candidates(walk));
      if ChunksOf(docs, split) != [] {
        FilesOfNonEmptyBuild(docs, split);
      }
      if files == [] {
        return HttpError(500, NotFoundDetail(directory));
      }
      var system := new RagSystem(saved, embedderLoads);
      models := models[SystemKey := system];
      r := Respond(ReindexResponse(ReindexMessage(|files|), files));
    }
  }
}
