# RAG local search engine — a Dafny model of the backend's own logic

The backend of this local search engine has four parts:

- It extracts text from `.txt`, `.pdf`, `.csv`, `.doc` and `.docx` files and normalises its whitespace.
- It splits the text into chunks and records one metadata entry per chunk next to one embedding vector per chunk.
- It answers questions by retrieving the metadata entries nearest to the question and sending a grounding prompt to a chat model.
- It exposes FastAPI endpoints to search, list the indexed files and re-index a directory.

This project models the sequential string and collection logic around the libraries. File contents, the PDF reader, `textract`, the text splitter, the embedding model, the FAISS search and the chat model are all inputs: values, or uninterpreted functions given as parameters.

This project contains the following modules:

- `Wrappers`: `Option` and `Result`.
- `SeqLemmas`: slicing and concatenation facts.
- `PyStr`: the Python `str` builtins used: `isspace`, `strip`, `join`, `replace`, `lower`, `startswith`, `in` and `str(n)`.
- `PosixPath`: `basename`, `splitext` and `join`.
- `Sorting`: Python's string order and `sorted` of a set.
- `CleanText`: `clean_text`. The model follows the source (a regex substitution, then `strip`) and proves it equal to `" ".join(s.split())`.
- `FileProcessor`: the handlers, the extension dispatch and `process_directory`, which is a nested loop.
- `VectorStore`: `build_index`'s accumulation loop and its result.
- `QaSystem`: class `RagSystem`, with its constructor and `ask`.
- `Api`: class `Api`, whose `models` map is `ml_models`. Its methods are the three endpoints and the lifespan hook.

Paths below are relative to the repository root.

## Model

| member | source | states |
|---|---|---|
| PyStr.Strip | backend/src/file_processor.py:15 | `strip()` leaves no whitespace at either end, and is empty exactly when the input is empty or all whitespace |
| PyStr.StripIsSlice | backend/src/file_processor.py:15 | `strip()` only removes whitespace, and only at the two ends: the result is a slice whose cut-off margins are all whitespace |
| PyStr.JoinSnoc | backend/src/file_processor.py:34 | joining one more part appends the separator and that part |
| PyStr.JoinContainsParts | backend/src/qa_system.py:87 | every part occurs in the joined string |
| PyStr.Lower | backend/src/file_processor.py:57 | `lower()` keeps the length, turns every ASCII capital into its small letter and keeps every other character, so no ASCII capital is left |
| PyStr.LowerIdempotent | backend/src/file_processor.py:57 | lowering an already lowered string changes nothing |
| PyStr.NatToStringRoundTrip | backend/src/main.py:122 | `str(n)` is a digit string whose decimal value is `n` |
| PosixPath.Basename | backend/src/file_processor.py:31 | the basename is the suffix after the last `/`: it holds no `/` and is preceded by `/` unless it is the whole path |
| PosixPath.SplitExt | backend/src/file_processor.py:57 | root + extension is the path; the extension is empty, or starts with `.` and holds no other `.` and no `/` |
| PosixPath.ExtensionOfBasename | backend/src/file_processor.py:57 | the extension is non-empty exactly when the basename has a non-dot character before some dot, and is then the basename from its last dot on; a basename of leading dots only has none |
| PosixPath.BasenameOfJoin | backend/src/file_processor.py:75 | the basename of `os.path.join(root, name)` is `name` for a name without `/` |
| Sorting.LessTransitive | backend/src/vector_store.py:88 | Python's string order is transitive |
| Sorting.LessTotal | backend/src/vector_store.py:88 | Python's string order is total: any two different strings are ordered one way |
| Sorting.SortedList | backend/src/vector_store.py:88 | `sorted(list(s))` is strictly ascending, holds exactly the elements of `s`, and has `len(s)` entries |
| Sorting.SortedUnique | backend/src/vector_store.py:88 | two strictly ascending lists with the same elements are equal, so the sorted list of a set is unique |
| CleanText.Collapse | backend/src/file_processor.py:14 | `re.sub(r'\s+', ' ', s)` gives a string no longer than `s`, and empty only when `s` is |
| CleanText.Clean | backend/src/file_processor.py:13-15 | cleaned text has no whitespace at either end; its only whitespace character is `' '`, never twice in a row; and it is empty exactly when the input is empty or all whitespace |
| CleanText.CleanIsJoinedWords | backend/src/file_processor.py:13-15 | `clean_text(s)` equals the whitespace-separated words of `s` joined by single spaces |
| CleanText.WordsOfJoin | backend/src/file_processor.py:14-15 | splitting a single-space join of words gives back those words |
| CleanText.CleanIdempotent | backend/src/file_processor.py:13-15 | `clean_text(clean_text(s)) == clean_text(s)` |
| CleanText.NonSpacesAreWords | backend/src/file_processor.py:14 | the non-whitespace characters of a string, in order, are its words concatenated |
| CleanText.CleanKeepsNonSpaces | backend/src/file_processor.py:14-15 | cleaning keeps every non-whitespace character, in order, and adds none |
| CleanText.CleanAddsNoCharacter | backend/src/file_processor.py:14-15 | a non-whitespace character occurs in the cleaned text exactly when it occurs in the input |
| FileProcessor.HandlerFor | backend/src/file_processor.py:46-52 | exactly `.txt`, `.pdf`, `.csv`, `.doc` and `.docx` have a handler, and `.doc` and `.docx` share the same one |
| FileProcessor.TxtOutcome | backend/src/file_processor.py:17-19 | the `.txt` handler gives the file's text or passes the read error on, and never raises `ImportError` |
| FileProcessor.CsvText | backend/src/file_processor.py:38 | CSV text keeps its length and has every newline and comma turned into a space, so it holds neither |
| FileProcessor.CsvOutcome | backend/src/file_processor.py:36-38 | the `.csv` handler gives the CSV transform of the file's text (same length, no newline, no comma), or passes the read error on, and never raises `ImportError` |
| FileProcessor.ExtractPdf | backend/src/file_processor.py:22-34 | a read error is passed on; an encrypted file that cannot be decrypted gives `[Skipping encrypted PDF: <basename>]`; otherwise the page texts, in page order and joined by single spaces, with a page without text read as `""` |
| FileProcessor.DocOutcome | backend/src/file_processor.py:41-44 | the `textract` handler raises `ImportError("textract is required.")` exactly when `textract` is missing; otherwise it gives the text `textract` produced, or passes its error on |
| FileProcessor.ExtensionCaseIgnored | backend/src/file_processor.py:57-58 | the dispatch key is in lower case, and the upper-case spellings of the five extensions select the same handlers as the lower-case ones |
| FileProcessor.InfoMessage | backend/src/file_processor.py:61 | the unsupported-type notice starts with `[INFO]` |
| FileProcessor.WarnMessage | backend/src/file_processor.py:66 | the missing-dependency notice starts with `[WARN]`, not with `[INFO]` or `[ERROR]` |
| FileProcessor.ErrorMessage | backend/src/file_processor.py:68 | the read-failure notice starts with `[ERROR]` |
| FileProcessor.ExtractText | backend/src/file_processor.py:56-68 | no handler gives an `[INFO]` notice; `ImportError` a `[WARN]` notice; any other exception an `[ERROR]` notice; success the handler's text in normal form, empty exactly when that text is blank |
| FileProcessor.UnsupportedIsSkipped | backend/src/file_processor.py:57-61 | an extension without a handler gives exactly `[INFO] Skipping unsupported file type:` followed by the extension, whatever the handler would have done, so no handler runs |
| FileProcessor.SupportedOutcomes | backend/src/file_processor.py:63-68 | with a handler, success gives the cleaned text (which is normalised), `ImportError` gives the `[WARN] Missing dependancy for` notice, and any other exception gives the `[ERROR] Could not read` notice |
| FileProcessor.CsvFileText | backend/src/file_processor.py:36-68 | a readable `.csv` file yields its cleaned, transformed text, which holds no newline and no comma; an unreadable one yields the `[ERROR]` notice, which the scan drops |
| FileProcessor.DocWithoutTextract | backend/src/file_processor.py:41-66 | without `textract`, a `.doc` or `.docx` file yields the missing-dependency notice, and the scan keeps it |
| FileProcessor.Keep | backend/src/file_processor.py:78 | the scan's filter passes an empty text and every `[WARN]` notice |
| FileProcessor.KeptIff | backend/src/file_processor.py:78 | an extracted text passes the scan's filter exactly when the file has a handler and either raised `ImportError` or gave text that, once cleaned, starts with neither `[INFO]` nor `[ERROR]` |
| FileProcessor.CleanKeepsLeadingWord | backend/src/file_processor.py:13-15 | a text that begins with a word still begins with it once cleaned |
| FileProcessor.EncryptedPdfNoticeIsKept | backend/src/file_processor.py:31 | the encrypted-PDF notice, once cleaned, still starts with `[Skipping` and passes the filter, so it becomes document text |
| FileProcessor.Candidate | backend/src/file_processor.py:75-76 | a listed file's name is the basename of the path it is extracted under |
| FileProcessor.Kept | backend/src/file_processor.py:78-79 | the filter's output has no more entries than its input, and a document is in it exactly when it is in the input and passes the tag test |
| FileProcessor.KeptAppend | backend/src/file_processor.py:73-79 | filtering keeps walk order: filtering a concatenation filters each part and concatenates the results |
| FileProcessor.CandidatesMembership | backend/src/file_processor.py:73-76 | a document is a candidate of the walk exactly when it is the candidate of one of the walk's directory steps |
| FileProcessor.ProcessDirectory | backend/src/file_processor.py:71-79 | the nested loop yields the filtered candidates of the walk, directory by directory and file by file |
| VectorStore.DocChunks | backend/src/vector_store.py:53-54 | one metadata entry per piece, in split order, each holding the file's full path and that piece |
| VectorStore.ChunksOf | backend/src/vector_store.py:42-54 | the basename of every metadata entry's source is in `processed_files` |
| VectorStore.ProcessedNames | backend/src/vector_store.py:41-46 | `processed_files` has at most one name per scanned document |
| VectorStore.BlankContributesNothing | backend/src/vector_store.py:43-46 | a document whose text is empty or whitespace-only adds no chunk, no metadata entry and no file name |
| VectorStore.ChunksOfAppend | backend/src/vector_store.py:42-54 | chunks are ordered by document: the chunks of two scans in a row are the first scan's chunks, then the second's |
| VectorStore.ChunkOrigin | backend/src/vector_store.py:42-54 | a metadata entry exists exactly for each piece of the split text of a non-blank document, and its source is that document's full path |
| VectorStore.ProcessedNamesIff | backend/src/vector_store.py:43-46 | a name is in `processed_files` exactly when it is the basename of a document with non-blank text |
| VectorStore.AppendEntries | backend/src/vector_store.py:53-54 | the inner loop appends the file's entries, and the entries' contents grow by exactly the file's pieces |
| VectorStore.Accumulate | backend/src/vector_store.py:37-54 | after the loop, the metadata is the scan's chunks, `processed_files` is the scan's processed names, and `all_chunks[i]` is the content of `metadata[i]` for every `i` |
| VectorStore.BuildIndex | backend/src/vector_store.py:37-88 | no chunk means `[]` and nothing written; otherwise it returns the sorted processed names and writes the metadata and one vector per chunk in chunk order, so vector `i` is the embedding of `metadata[i]`'s content |
| VectorStore.ListedFilesIff | backend/src/vector_store.py:88 | the returned list is strictly sorted, and lists a name exactly when a non-blank scanned document has that basename |
| QaSystem.Prompt | backend/src/qa_system.py:93-109 | the prompt, whose text matches those lines character for character, contains the context string and the question |
| QaSystem.Retrieved | backend/src/qa_system.py:75 | one retrieved chunk per neighbour position, in order: entry `j` is the metadata entry at position `neighbours[j]` |
| QaSystem.ContextPart | backend/src/qa_system.py:82-85 | each part is exactly `Source: <basename>\nContent: ` followed by the content, and the basename holds no `/` |
| QaSystem.ContextString | backend/src/qa_system.py:87 | no retrieved chunk gives the empty context, and one chunk gives its part alone |
| QaSystem.ContextHoldsParts | backend/src/qa_system.py:85-87 | the context contains the part of every retrieved chunk |
| QaSystem.ContextSnoc | backend/src/qa_system.py:81-87 | the context is one part per retrieved chunk, in retrieval order: each further chunk appends `\n\n---\n\n` and its part |
| QaSystem.AnswerOf | backend/src/qa_system.py:117-125 | the answer is the model's reply, or `Error communicating with model: ` followed by the exception's text |
| QaSystem.ListOfSet | backend/src/qa_system.py:130 | `list(set)` lists each element of the set exactly once |
| QaSystem.Assemble | backend/src/qa_system.py:77-85 | the loop builds one context part per retrieved chunk, in order, and the set of their basenames |
| QaSystem.RagSystem.constructor | backend/src/qa_system.py:15-48 | both saved files, when both exist and both reads succeed; otherwise the index is `None` and the metadata `[]` |
| QaSystem.RagSystem.Ask | backend/src/qa_system.py:58-131 | a blank question gets the fixed answer with no sources; a missing model or index raises; otherwise the chunks at the neighbour positions become the prompt, and the answer is the reply (or the error notice) with the distinct basenames of those chunks as sources |
| Api.IndexedFileNames | backend/src/main.py:90-96 | the listed files are strictly sorted, and a name is listed exactly when it is the basename of some metadata entry's source |
| Api.ReplyOf | backend/src/main.py:79-80 | what `ask` returns is the response; an exception it raises becomes FastAPI's plain 500 |
| Api.ReindexMessage | backend/src/main.py:122 | the success message starts with `Successfully re-indexed `, ends with ` files.`, and holds between them the number of files in decimal, without leading zero |
| Api.NotFoundDetail | backend/src/main.py:113-116 | the empty-result 500 detail is the `404:` prefix followed by the directory |
| Api.IndexedFilesOfBuild | backend/src/vector_store.py:46-54 | every file that would be listed for the metadata a build writes is among the files that build returns |
| Api.FilesOfNonEmptyBuild | backend/src/main.py:109-113 | a build that produced a chunk returns at least one file, so only a chunkless build reaches the not-found path |
| Api.Api.constructor | backend/src/main.py:16-19 | the lifespan hook stores one fresh `RAGSystem` under `"rag_system"` |
| Api.Api.Search | backend/src/main.py:68-80 | with no stored system, 500; with no index or no metadata, the fixed empty-index answer with no sources, and `ask` is not called; otherwise what `ask` yields for the query and `k` (`SearchQuery`'s default is 4, as at line 43), with an exception becoming a 500 |
| Api.Api.IndexedFiles | backend/src/main.py:83-98 | with no stored system, 500; otherwise the sorted distinct basenames of the stored metadata's sources |
| Api.Api.Reindex | backend/src/main.py:101-124 | an exception inside the build answers 500 with its text; a build with no result answers 500 with the 404's text; in both cases `ml_models` is unchanged; on success a fresh system replaces only `"rag_system"`, and the reply is `Successfully re-indexed N files.` with N the number of returned files, and the list itself |

## Left out

- I/O is not modelled: file reads, `os.walk`, PyPDF2, `textract`, the FAISS and pickle files, and the Ollama call. Each is an input: handler outcomes, the walk as a sequence of `(root, files)` steps, what the constructor finds on disk, and the chat reply.
- The text splitter (chunk size 600, overlap 75) is an uninterpreted function from text to pieces.
- The embedding model is an uninterpreted function from chunk text to a vector of reals. float32 rounding and FAISS's L2 search are not modelled.
- Embedding, one chunk at a time: `model.encode(all_chunks)` encodes the whole list in a single call, and the model takes it to be the per-chunk embedding in order.
- The index search is the given neighbour positions. When FAISS finds fewer than `k` neighbours it pads the result with `-1`, which Python would read as `metadata[-1]`. The model instead requires every position to be in range and the row to be `k` long.
- `QaSystem.RagSystem.Ask`: FAISS rejects `k <= 0` with an exception, which the model does not capture. For `k = 0` the model's row is empty, and `ask` answers from an empty context; a negative `k` admits no row, so `ask` is not modelled for it.
- `QaSystem.RagSystem.Ask`: the order of `list(unique_sources)` is Python's set-iteration order. The model picks an arbitrary order and states only that each name appears exactly once.
- `PyStr.Lower`: applies ASCII case mapping only. Python's full lowering can also change a string's length: `'İ'.lower()` is `i` followed by U+0307. The only non-ASCII characters whose lowering holds an ASCII letter are `İ` (U+0130), whose result keeps the non-ASCII U+0307, and the Kelvin sign (U+212A), which lowers to `k`, a letter no handled extension contains. So the dispatch decision is the same. The text of the unsupported-type notice does differ for an extension with a non-ASCII capital: for `a.Ä` the backend writes `.ä` and the model `.Ä`.
- `FileProcessor.TxtOutcome`, `FileProcessor.CsvOutcome`, `FileProcessor.DocOutcome`: the UTF-8 decoding with `errors="ignore"` is part of the input; PyPDF2's reading of the binary PDF file is likewise an input of `FileProcessor.ExtractPdf`.
- `FileProcessor.ExtractText` takes the selected handler's outcome as an input and does not itself run the handler that `HandlerFor` picks; `FileProcessor.CsvFileText` and `FileProcessor.DocWithoutTextract` compose the two for the CSV and `textract` handlers.
- `build_index` writes to the module's own directory, while `RAGSystem` reads from `/data`. The model does not connect the two: the state the new system loads after a re-index is an input of `Api.Api.Reindex`.
- `Api.Api.Reindex`: an exception from the embedding model or the index writes is one optional input, checked before the scan. The model does not say at which step it was raised.
- An unhandled exception in an endpoint becomes FastAPI's plain `500 Internal Server Error`.
- Concurrency: FastAPI runs these plain `def` endpoints on a thread pool, so a `/reindex` can overlap a `/search` or an `/indexed-files` call. The model treats each endpoint call as one atomic step on `ml_models`.
- A FAISS index object is taken to be truthy.
- Not modelled: the frontend, FastAPI and CORS setup, the pydantic models other than the default of `SearchQuery.k`, logging and prints, the `read_root` status endpoint, and the `__main__` command-line loops.
