/**
  `RAGSystem`: the question-answering side. The constructor loads the saved
  index and metadata or falls back to an empty state; `ask` retrieves the
  metadata entries at the neighbour positions the index search returns, builds
  the context and the prompt, and returns the model's answer with the distinct
  source file names. The saved files, the embedding model, the index search
  and the chat model are inputs.
 */
module QaSystem {
  import opened Wrappers
  import opened PyStr
  import opened PosixPath
  import opened SeqLemmas
  import opened VectorStore

  /** What the constructor finds on disk: whether the two files exist, and what
      reading each yields (its value, or the message of the exception raised). */
  datatype SavedState = SavedState(
    indexExists: bool,
    metadataExists: bool,
    indexRead: Result<VectorIndex, string>,
    metadataRead: Result<seq<Chunk>, string>)

  /** The dictionary `ask` returns. */
  datatype Response = Response(answer: string, sources: seq<string>)

  const InvalidQuestion: string := "provide a valid question"
  const Separator: string := "\n\n---\n\n"
  const ModelErrorPrefix: string := "Error communicating with model: "

  /** The `AttributeError`s Python raises when `ask` reaches a missing model
      or a missing index. */
  const NoEncoder: string := "'NoneType' object has no attribute 'encode'"
  const NoIndex: string := "'NoneType' object has no attribute 'search'"

  /** The text of the prompt around the context and the question. */
  const PromptHead: string :=
    "\n        You are an expert Question-Answering assistant."
    + "\n        Your task is to answer the user's question based ONLY on the provided context."
    + "\n        Do not use any external knowledge."
    + "\n        If the context does not contain the answer, state that you cannot answer the question with the information provided."
    + "\n        Cite the source filename for each piece of information you use by adding [Source: filename.ext] at the end of the sentence."
    + "\n\n        **VERY IMPORTANT INSTRUCTION:** When you cite a source, you MUST only use the filename. For example, if the context says \"Source: /documents/reports/quarterly/report_q4.pdf\", you must cite it as \"[Source: report_q4.pdf]\". Do not include the full path."
    + "\n\n        CONTEXT:\n        "
  const PromptMiddle: string := "\n\n        USER'S QUESTION:\n        "
  const PromptTail: string := "\n\n        ANSWER:\n        "

  /** The prompt sent to the chat model; it holds both the context and the
      question. */
  function Prompt(context: string, query: string): (r: string)
    ensures Contains(r, context)
    ensures Contains(r, query)
  {
    AppendAssoc(PromptHead + context, PromptMiddle, query);
    AppendAssoc(PromptHead + context, PromptMiddle + query, PromptTail);
    ContainsMiddle(PromptHead, context, PromptMiddle + query + PromptTail);
    ContainsMiddle(PromptHead + context + PromptMiddle, query, PromptTail);
    PromptHead + context + PromptMiddle + query + PromptTail
  }

  /** `retrieved_chunks`: the metadata entries at the neighbour positions,
      one per position and in the order of the positions, each of them an
      entry of the metadata. */
  function Retrieved(metadata: seq<Chunk>, neighbours: seq<int>): (r: seq<Chunk>)
    requires forall j :: 0 <= j < |neighbours| ==> 0 <= neighbours[j] < |metadata|
    ensures |r| == |neighbours|
    ensures forall j :: 0 <= j < |r| ==> r[j] == metadata[neighbours[j]]
    ensures forall c :: c in r ==> c in metadata
  {
    seq(|neighbours|, j requires 0 <= j < |neighbours| => metadata[neighbours[j]])
  }

  /** The context entry of one retrieved chunk: it names the file by its
      basename, which has no `/`, and then holds exactly the chunk's content. */
  function ContextPart(c: Chunk): (part: string)
    ensures var name := Basename(c.source);
            && '/' !in name
            && StartsWith(part, "Source: " + name + "\nContent: ")
            && |c.content| <= |part|
            && part[|"Source: " + name + "\nContent: "|..] == c.content
            && part[|part| - |c.content|..] == c.content
  {
    var head := "Source: " + Basename(c.source) + "\nContent: ";
    PrefixOfAppend(head, c.content, |head|);
    head + c.content
  }

  function ContextParts(retrieved: seq<Chunk>): seq<string> {
    seq(|retrieved|, j requires 0 <= j < |retrieved| => ContextPart(retrieved[j]))
  }

  /** `context_string`: empty without retrieved chunks, and a single
      chunk's part alone. */
  function ContextString(retrieved: seq<Chunk>): (r: string)
    ensures retrieved == [] ==> r == []
    ensures |retrieved| == 1 ==> r == ContextPart(retrieved[0])
  {
    var parts := ContextParts(retrieved);
    assert |retrieved| == 1 ==> parts[0] == ContextPart(retrieved[0]);
    Join(parts, Separator)
  }

  /** The context holds the part of every retrieved chunk. */
  lemma ContextHoldsParts(retrieved: seq<Chunk>)
    ensures forall j :: 0 <= j < |retrieved| ==> Contains(ContextString(retrieved), ContextPart(retrieved[j]))
  {
    var parts := ContextParts(retrieved);
    JoinContainsParts(parts, Separator);
    forall j | 0 <= j < |retrieved|
      ensures Contains(ContextString(retrieved), ContextPart(retrieved[j]))
    {
      assert parts[j] == ContextPart(retrieved[j]);
    }
  }

  /** The file names of the retrieved chunks. */
  function SourceNames(retrieved: seq<Chunk>): set<string> {
    set c | c in retrieved :: Basename(c.source)
  }

  /** The answer for the chat model's reply, or for the exception it raised:
      the reply itself, or the exception's text after a fixed prefix. */
  function AnswerOf(reply: Result<string, string>): (r: string)
    ensures reply.Success? ==> r == reply.value
    ensures reply.Failure? ==> StartsWith(r, ModelErrorPrefix) && r[|ModelErrorPrefix|..] == reply.error
  {
    if reply.Success? then reply.value
    else
      PrefixOfAppend(ModelErrorPrefix, reply.error, |ModelErrorPrefix|);
      ModelErrorPrefix + reply.error
  }

  predicate NoDuplicates(s: seq<string>) {
    forall i, j :: 0 <= i < j < |s| ==> s[i] != s[j]
  }

  /** The context is built one part per retrieved chunk, in retrieval order:
      each further chunk appends the separator and its part. */
  lemma ContextSnoc(retrieved: seq<Chunk>, c: Chunk)
    ensures retrieved != [] ==>
              ContextString(retrieved + [c]) == ContextString(retrieved) + Separator + ContextPart(c)
  {
    if retrieved != [] {
      PartsAppend(retrieved, c);
      JoinSnoc(ContextParts(retrieved), ContextPart(c), Separator);
    }
  }

  lemma PartsAppend(retrieved: seq<Chunk>, c: Chunk)
    ensures ContextParts(retrieved + [c]) == ContextParts(retrieved) + [ContextPart(c)]
  {
    var all := ContextParts(retrieved + [c]);
    var parts := ContextParts(retrieved);
    forall k | 0 <= k < |all|
      ensures all[k] == (parts + [ContextPart(c)])[k]
    {
      if k < |retrieved| {
        assert (retrieved + [c])[k] == retrieved[k];
      }
    }
  }

  /** `list(unique_sources)`: the set's elements once each, in an order Python
      leaves unspecified. */
  method ListOfSet(s: set<string>) returns (r: seq<string>)
    ensures NoDuplicates(r)
    ensures forall x :: x in r <==> x in s
    ensures |r| == |s|
  {
    r := [];
    var rest := s;
    while rest != {}
      invariant rest <= s
      invariant forall x :: x in r <==> x in s && x !in rest
      invariant NoDuplicates(r)
      invariant |r| + |rest| == |s|
      decreases |rest|
    {
      var x :| x in rest;
      r := r + [x];
      rest := rest - {x};
    }
  }

  lemma PartsSnoc(retrieved: seq<Chunk>, j: nat)
    requires j < |retrieved|
    ensures ContextParts(retrieved[..j + 1]) == ContextParts(retrieved[..j]) + [ContextPart(retrieved[j])]
  {
    var a := ContextParts(retrieved[..j + 1]);
    var b := ContextParts(retrieved[..j]) + [ContextPart(retrieved[j])];
    assert |a| == |b|;
    forall k | 0 <= k < |a|
      ensures a[k] == b[k]
    {
      assert retrieved[..j + 1][k] == retrieved[k];
      if k < j {
        assert retrieved[..j][k] == retrieved[k];
        assert b[k] == ContextParts(retrieved[..j])[k];
      }
    }
  }

  lemma NamesSnoc(retrieved: seq<Chunk>, j: nat)
    requires j < |retrieved|
    ensures SourceNames(retrieved[..j + 1]) == SourceNames(retrieved[..j]) + {Basename(retrieved[j].source)}
  {
    SnocPrefix(retrieved, j);
  }

  /** The loop of `ask` over the retrieved chunks: one context part per chunk,
      in retrieval order, and the set of their file names. */
  method Assemble(retrieved: seq<Chunk>) returns (parts: seq<string>, unique: set<string>)
    ensures parts == ContextParts(retrieved)
    ensures unique == SourceNames(retrieved)
  {
    unique := {};
    parts := [];
    var j := 0;
    while j < |retrieved|
      invariant 0 <= j <= |retrieved|
      invariant parts == ContextParts(retrieved[..j])
      invariant unique == SourceNames(retrieved[..j])
    {
      var name := Basename(retrieved[j].source);
      PartsSnoc(retrieved, j);
      NamesSnoc(retrieved, j);
      unique := unique + {name};
      parts := parts + ["Source: " + name + "\nContent: " + retrieved[j].content];
      j := j + 1;
    }
    assert retrieved[..j] == retrieved;
  }

  /** What `ask` yields for a given state: nothing but the fixed answer for a
      blank question; the `AttributeError` for a missing model or index;
      otherwise the reply to the prompt built from the retrieved chunks,
      together with their distinct file names whatever the reply. */
  ghost predicate Answers(
    index: Option<VectorIndex>, metadata: seq<Chunk>, embedderLoaded: bool,
    query: string, neighbours: seq<int>, chat: string -> Result<string, string>,
    r: Result<Response, string>)
  {
    if IsBlank(query) then r == Success(Response(InvalidQuestion, []))
    else if !embedderLoaded then r == Failure(NoEncoder)
    else if index.None? then r == Failure(NoIndex)
    else
      && (forall j :: 0 <= j < |neighbours| ==> 0 <= neighbours[j] < |metadata|)
      && var retrieved := Retrieved(metadata, neighbours);
      && r.Success?
      && r.value.answer == AnswerOf(chat(Prompt(ContextString(retrieved), query)))
      && NoDuplicates(r.value.sources)
      && (forall x :: x in r.value.sources <==> x in SourceNames(retrieved))
  }

  /** The state `RAGSystem()` starts in: both saved files when both exist and
      both reads succeed; otherwise no index and no metadata. */
  ghost predicate LoadedFrom(saved: SavedState, index: Option<VectorIndex>, metadata: seq<Chunk>) {
    if saved.indexExists && saved.metadataExists && saved.indexRead.Success? && saved.metadataRead.Success?
    then index == Some(saved.indexRead.value) && metadata == saved.metadataRead.value
    else index == None && metadata == []
  }

  class RagSystem {
    var index: Option<VectorIndex>
    var metadata: seq<Chunk>
    var embedderLoaded: bool

    /** `RAGSystem()`: loads both saved files when both exist; a failure while
        reading either leaves no index and no metadata, as does a missing file. */
    constructor(saved: SavedState, embedderLoads: bool)
      ensures LoadedFrom(saved, index, metadata)
      ensures embedderLoaded == embedderLoads
    {
      index := None;
      metadata := [];
      embedderLoaded := false;
      if saved.indexExists && saved.metadataExists {
        if saved.indexRead.Failure? {
          index := None;
          metadata := [];
        } else {
          index := Some(saved.indexRead.value);
          if saved.metadataRead.Failure? {
            index := None;
            metadata := [];
          } else {
            metadata := saved.metadataRead.value;
          }
        }
      }
      embedderLoaded := embedderLoads;
    }

    /** `ask(query, k)`. `neighbours` is the first row of the positions the
        index search returns for the query's embedding: `k` of them, each a
        valid metadata position. */
    method Ask(query: string, k: int, neighbours: seq<int>, chat: string -> Result<string, string>)
      returns (r: Result<Response, string>)
      requires !IsBlank(query) && embedderLoaded && index.Some? ==>
                 |neighbours| == k && forall j :: 0 <= j < |neighbours| ==> 0 <= neighbours[j] < |metadata|
      ensures Answers(index, metadata, embedderLoaded, query, neighbours, chat, r)
    {
      if Strip(query) == [] {
        return Success(Response(InvalidQuestion, []));
      }
      if !embedderLoaded {
        return Failure(NoEncoder);
      }
      if index.None? {
        return Failure(NoIndex);
      }
      var retrieved := Retrieved(metadata, neighbours);
      var parts, unique := Assemble(retrieved);
      var context := Join(parts, Separator);
      assert context == ContextString(retrieved);
      var prompt := Prompt(context, query);
      var reply := chat(prompt);
      var answer := AnswerOf(reply);
      var sources := ListOfSet(unique);
      r := Success(Response(answer, sources));
    }
  }
}
