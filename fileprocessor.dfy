/**
  Text extraction (backend/src/file_processor.py): the per-format handlers,
  the dispatch on the lower-cased extension, and the directory scan that
  drops informational and error messages.  File contents, PDF parsing and
  `textract` are inputs; a handler's result, or the exception it raised, is
  an `Outcome`.
 */
module FileProcessor {
  import opened Wrappers
  import opened PyStr
  import opened PosixPath
  import opened CleanText
  import opened SeqLemmas

  /** What a handler returned, or which kind of exception it raised and its message. */
  datatype Outcome = Ok(text: string) | ImportErr(msg: string) | OtherErr(msg: string)

  /** The four handler functions. */
  datatype Handler = TxtHandler | PdfHandler | CsvHandler | DocHandler

  /** `FILE_HANDLERS`. */
  const FileHandlers: map<string, Handler> :=
    map[".txt" := TxtHandler, ".pdf" := PdfHandler, ".csv" := CsvHandler,
        ".doc" := DocHandler, ".docx" := DocHandler]

  /** `FILE_HANDLERS.get(ext)`: exactly five extensions have a handler, and
      `.doc` and `.docx` share the `textract` one. */
  function HandlerFor(ext: string): (h: Option<Handler>)
    ensures h.Some? <==> ext in {".txt", ".pdf", ".csv", ".doc", ".docx"}
    ensures h == Some(DocHandler) <==> ext == ".doc" || ext == ".docx"
    ensures h == Some(TxtHandler) <==> ext == ".txt"
    ensures h == Some(PdfHandler) <==> ext == ".pdf"
    ensures h == Some(CsvHandler) <==> ext == ".csv"
  {
    if ext in FileHandlers then Some(FileHandlers[ext]) else None
  }

  // ---- The handlers ----

  /** `extract_text_from_txt`: the file's text, or the error opening or
      reading it; it never raises `ImportError`. */
  function TxtOutcome(read: Result<string, string>): (o: Outcome)
    ensures !o.ImportErr?
    ensures read.Success? ==> o == Ok(read.value)
    ensures read.Failure? ==> o == OtherErr(read.error)
  {
    match read
    case Success(content) => Ok(content)
    case Failure(e) => OtherErr(e)
  }

  /** The CSV transform: newlines and commas become spaces, nothing else
      changes. */
  function CsvText(content: string): (r: string)
    ensures |r| == |content|
    ensures forall i :: 0 <= i < |r| ==>
              r[i] == (if content[i] == '\n' || content[i] == ',' then ' ' else content[i])
    ensures '\n' !in r && ',' !in r
  {
    Replace(Replace(content, '\n', ' '), ',', ' ')
  }

  /** `extract_text_from_csv`: the transformed text, which holds no newline
      and no comma, or the error opening or reading the file; it never raises
      `ImportError`. */
  function CsvOutcome(read: Result<string, string>): (o: Outcome)
    ensures !o.ImportErr?
    ensures o.Ok? <==> read.Success?
    ensures read.Success? ==> o == Ok(CsvText(read.value))
    ensures o.Ok? ==> |o.text| == |read.value| && '\n' !in o.text && ',' !in o.text
    ensures read.Failure? ==> o == OtherErr(read.error)
  {
    match read
    case Success(content) => Ok(CsvText(content))
    case Failure(e) => OtherErr(e)
  }

  /** What PyPDF2 finds in a file: whether it is encrypted, whether
      `decrypt('')` raises, and what `extract_text()` gives for each page. */
  datatype PdfDocument = PdfDocument(encrypted: bool, decryptRaises: bool, pages: seq<Option<string>>)

  /** `page.extract_text() or ""`. */
  function PageText(page: Option<string>): string {
    match page
    case Some(t) => t
    case None => ""
  }

  /** `extract_text_from_pdf`: an encrypted file that cannot be decrypted with
      the empty password gives a skip notice naming the file; otherwise the
      text of every page, in page order, joined by single spaces, a page
      without text counting as the empty string. */
  method ExtractPdf(path: string, file: Result<PdfDocument, string>) returns (o: Outcome)
    ensures file.Failure? ==> o == OtherErr(file.error)
    ensures file.Success? && file.value.encrypted && file.value.decryptRaises ==>
              o == Ok("[Skipping encrypted PDF: " + Basename(path) + "]")
    ensures file.Success? && !(file.value.encrypted && file.value.decryptRaises) ==>
              o.Ok? && o.text == Join(seq(|file.value.pages|, i requires 0 <= i < |file.value.pages| =>
                                            PageText(file.value.pages[i])), " ")
  {
    if file.Failure? {
      return OtherErr(file.error);
    }
    var doc := file.value;
    if doc.encrypted && doc.decryptRaises {
      return Ok("[Skipping encrypted PDF: " + Basename(path) + "]");
    }
    var text: seq<string> := [];
    var i := 0;
    while i < |doc.pages|
      invariant 0 <= i <= |doc.pages|
      invariant |text| == i
      invariant forall k :: 0 <= k < i ==> text[k] == PageText(doc.pages[k])
    {
      text := text + [PageText(doc.pages[i])];
      i := i + 1;
    }
    assert text == seq(|doc.pages|, i requires 0 <= i < |doc.pages| => PageText(doc.pages[i]));
    o := Ok(Join(text, " "));
  }

  /** `extract_text_from_doc`: without `textract` it raises `ImportError`,
      otherwise it gives the decoded output of `textract.process` or the
      error that call raised. */
  function DocOutcome(textractLoaded: bool, processed: Result<string, string>): (o: Outcome)
    ensures o.ImportErr? <==> !textractLoaded
    ensures o.ImportErr? ==> o.msg == "textract is required."
    ensures o.Ok? <==> textractLoaded && processed.Success?
    ensures textractLoaded && processed.Success? ==> o == Ok(processed.value)
    ensures textractLoaded && processed.Failure? ==> o == OtherErr(processed.error)
  {
    if !textractLoaded then ImportErr("textract is required.")
    else match processed
      case Success(t) => Ok(t)
      case Failure(e) => OtherErr(e)
  }

  // ---- Dispatch ----

  /** `os.path.splitext(filepath)[1].lower()`. */
  function ExtensionKey(path: string): string {
    Lower(Extension(path))
  }

  predicate Supported(path: string) {
    HandlerFor(ExtensionKey(path)).Some?
  }

  /** The dispatch ignores the case of the extension: upper-case spellings of
      the handled extensions select the same handlers, and the key is already
      in lower case. */
  lemma ExtensionCaseIgnored(path: string)
    ensures Lower(ExtensionKey(path)) == ExtensionKey(path)
    ensures Extension(path) == ".TXT" ==> HandlerFor(ExtensionKey(path)) == Some(TxtHandler)
    ensures Extension(path) == ".PDF" ==> HandlerFor(ExtensionKey(path)) == Some(PdfHandler)
    ensures Extension(path) == ".CSV" ==> HandlerFor(ExtensionKey(path)) == Some(CsvHandler)
    ensures Extension(path) == ".DOC" || Extension(path) == ".DOCX" ==>
              HandlerFor(ExtensionKey(path)) == Some(DocHandler)
  {
    var e := Extension(path);
    LowerIdempotent(e);
    UpperCaseKeys(e);
  }

  lemma UpperCaseKeys(e: string)
    ensures e == ".TXT" ==> Lower(e) == ".txt"
    ensures e == ".PDF" ==> Lower(e) == ".pdf"
    ensures e == ".CSV" ==> Lower(e) == ".csv"
    ensures e == ".DOC" ==> Lower(e) == ".doc"
    ensures e == ".DOCX" ==> Lower(e) == ".docx"
  {
    if e == ".TXT" {
      LowerUpper(e, ".txt");
    } else if e == ".PDF" {
      LowerUpper(e, ".pdf");
    } else if e == ".CSV" {
      LowerUpper(e, ".csv");
    } else if e == ".DOC" {
      LowerUpper(e, ".doc");
    } else if e == ".DOCX" {
      LowerUpper(e, ".docx");
    }
  }

  lemma LowerUpper(e: string, l: string)
    requires |e| == |l|
    requires forall i :: 0 <= i < |e| ==>
               || (e[i] == l[i] && !('A' <= l[i] <= 'Z'))
               || (e[i] as int + 32 == l[i] as int && 'a' <= l[i] <= 'z')
    ensures Lower(e) == l
  {
    assert forall i :: 0 <= i < |e| ==> Lower(e)[i] == l[i];
  }

  /** The notice for a file without a handler. */
  function InfoMessage(ext: string): (r: string)
    ensures StartsWith(r, "[INFO]")
  {
    var r := "[INFO] Skipping unsupported file type:" + ext;
    assert r[..6] == "[INFO]";
    r
  }

  /** The notice for a handler that raised `ImportError`. */
  function WarnMessage(ext: string, e: string): (r: string)
    ensures StartsWith(r, "[WARN]")
    ensures !StartsWith(r, "[INFO]") && !StartsWith(r, "[ERROR]")
  {
    var r := "[WARN] Missing dependancy for " + ext + ": " + e;
    assert r[..6] == "[WARN]";
    assert r[1] == 'W';
    r
  }

  /** The notice for a handler that raised any other exception. */
  function ErrorMessage(path: string, e: string): (r: string)
    ensures StartsWith(r, "[ERROR]")
  {
    var r := "[ERROR] Could not read " + path + ": " + e;
    assert r[..7] == "[ERROR]";
    r
  }

  /** `extract_text(filepath)`, given what the selected handler does on that
      file (unused when no handler is selected): an `[INFO]` notice without a
      handler, a `[WARN]` notice for `ImportError`, an `[ERROR]` notice for any
      other exception, and otherwise the handler's text in normal form, empty
      exactly when that text is blank. */
  function ExtractText(path: string, outcome: Outcome): (r: string)
    ensures !Supported(path) ==> StartsWith(r, "[INFO]")
    ensures Supported(path) && outcome.ImportErr? ==> StartsWith(r, "[WARN]")
    ensures Supported(path) && outcome.OtherErr? ==> StartsWith(r, "[ERROR]")
    ensures Supported(path) && outcome.Ok? ==> IsNormalized(r) && (r == [] <==> IsBlank(outcome.text))
  {
    var ext := ExtensionKey(path);
    if HandlerFor(ext).None? then InfoMessage(ext)
    else match outcome
      case Ok(t) => Clean(t)
      case ImportErr(e) => WarnMessage(ext, e)
      case OtherErr(e) => ErrorMessage(path, e)
  }

  /** An unsupported extension yields only the skip notice: which handler
      outcome is supplied makes no difference, so no handler runs. */
  lemma UnsupportedIsSkipped(path: string, o1: Outcome, o2: Outcome)
    requires !Supported(path)
    ensures ExtractText(path, o1) == ExtractText(path, o2)
    ensures ExtractText(path, o1) == "[INFO] Skipping unsupported file type:" + ExtensionKey(path)
  {
  }

  /** For a supported extension the handler's text comes back cleaned, an
      `ImportError` becomes a `[WARN]` notice naming the extension, and any
      other exception an `[ERROR]` notice naming the path. */
  lemma SupportedOutcomes(path: string, o: Outcome)
    requires Supported(path)
    ensures o.Ok? ==> ExtractText(path, o) == Clean(o.text) && IsNormalized(ExtractText(path, o))
    ensures o.ImportErr? ==>
              ExtractText(path, o) == "[WARN] Missing dependancy for " + ExtensionKey(path) + ": " + o.msg
    ensures o.OtherErr? ==> ExtractText(path, o) == "[ERROR] Could not read " + path + ": " + o.msg
  {
  }

  /** A CSV file gives its transformed text in normal form, which still holds
      no newline and no comma, or the `[ERROR]` notice, which is dropped. */
  lemma CsvFileText(path: string, read: Result<string, string>)
    requires ExtensionKey(path) == ".csv"
    ensures read.Success? ==>
              var t := ExtractText(path, CsvOutcome(read));
              t == Clean(CsvText(read.value)) && '\n' !in t && ',' !in t
    ensures read.Failure? ==>
              ExtractText(path, CsvOutcome(read)) == ErrorMessage(path, read.error)
              && !Keep(ExtractText(path, CsvOutcome(read)))
  {
    if read.Success? {
      CleanAddsNoCharacter(CsvText(read.value), ',');
    }
  }

  /** Without `textract`, a `.doc` or `.docx` file gives the missing-dependency
      notice, and the scan keeps it as the document's text. */
  lemma DocWithoutTextract(path: string, processed: Result<string, string>)
    requires ExtensionKey(path) == ".doc" || ExtensionKey(path) == ".docx"
    ensures ExtractText(path, DocOutcome(false, processed)) == WarnMessage(ExtensionKey(path), "textract is required.")
    ensures Keep(ExtractText(path, DocOutcome(false, processed)))
  {
  }

  /** The filter of `process_directory`: it passes an empty text and every
      `[WARN]` notice. */
  predicate Keep(text: string)
    ensures text == [] ==> Keep(text)
    ensures StartsWith(text, "[WARN]") ==> Keep(text)
  {
    assert StartsWith(text, "[WARN]") ==> text[1] == 'W';
    !StartsWith(text, "[INFO]") && !StartsWith(text, "[ERROR]")
  }

  /** Which extracted texts the directory scan keeps: a supported file whose
      handler raised `ImportError` (its `[WARN]` notice is kept as the
      document's text), or one whose cleaned text does not itself begin with
      `[INFO]` or `[ERROR]`; never an unsupported or unreadable file. */
  lemma KeptIff(path: string, o: Outcome)
    ensures Keep(ExtractText(path, o)) <==>
              Supported(path) && (o.ImportErr? || (o.Ok? && Keep(Clean(o.text))))
  {
  }

  /** Cleaning keeps a leading word: a text that begins with a word still
      begins with it once cleaned. */
  lemma CleanKeepsLeadingWord(p: string, s: string)
    requires IsWord(p) && StartsWith(s, p)
    ensures StartsWith(Clean(s), p)
  {
    CleanIsJoinedWords(s);
    assert s[0] == p[0];
    assert LeadingSpaces(s) == 0 && s[0..] == s;
    var n := WordLength(s);
    assert forall k :: 0 <= k < |p| ==> s[k] == p[k];
    assert n >= |p|;
    var ws := Words(s);
    assert ws[0] == s[..n];
    JoinStartsWithFirst(ws, " ");
    var j := Join(ws, " ");
    assert j[..n] == s[..n];
    assert j[..|p|] == j[..n][..|p|];
  }

  lemma PrefixChar(t: string, p: string, k: nat)
    requires StartsWith(t, p) && k < |p|
    ensures t[k] == p[k]
  {
    assert t[..|p|][k] == t[k];
  }

  /** The notice for an encrypted PDF is not filtered: once cleaned it still
      begins with `[Skipping`, so it is kept as the document's text. */
  lemma EncryptedPdfNoticeIsKept(name: string)
    ensures var t := Clean("[Skipping encrypted PDF: " + name + "]");
            Keep(t) && StartsWith(t, "[Skipping")
  {
    var p := "[Skipping";
    SkippingIsWord();
    NoticeStartsWithSkipping(name);
    CleanKeepsLeadingWord(p, "[Skipping encrypted PDF: " + name + "]");
    var t := Clean("[Skipping encrypted PDF: " + name + "]");
    PrefixChar(t, p, 1);
    if StartsWith(t, "[INFO]") {
      PrefixChar(t, "[INFO]", 1);
    }
    if StartsWith(t, "[ERROR]") {
      PrefixChar(t, "[ERROR]", 1);
    }
  }

  lemma SkippingIsWord()
    ensures IsWord("[Skipping")
  {
  }

  lemma NoticeStartsWithSkipping(name: string)
    ensures StartsWith("[Skipping encrypted PDF: " + name + "]", "[Skipping")
  {
    var p := "[Skipping";
    var rest := " encrypted PDF: " + name + "]";
    assert "[Skipping encrypted PDF: " + name + "]" == p + rest;
    PrefixOfAppend(p, rest, |p|);
  }

  // ---- The directory scan ----

  /** A file as the directory walk reports it, with the outcome its handler
      would have. */
  datatype WalkFile = WalkFile(name: string, outcome: Outcome)

  /** One `(root, _, files)` step of `os.walk`. */
  datatype WalkDir = WalkDir(root: string, files: seq<WalkFile>)

  /** A `(filepath, text)` pair. */
  datatype Document = Document(path: string, text: string)

  /** The `(filepath, text)` pair of one listed file, before the filter; a
      plain file name is the basename of its path. */
  function Candidate(root: string, f: WalkFile): (d: Document)
    ensures '/' !in f.name ==> Basename(d.path) == f.name
  {
    var path := JoinPath(root, f.name);
    if '/' !in f.name then
      BasenameOfJoin(root, f.name);
      Document(path, ExtractText(path, f.outcome))
    else
      Document(path, ExtractText(path, f.outcome))
  }

  /** Every file of one directory step, extracted, in listing order. */
  function DirCandidates(root: string, files: seq<WalkFile>): seq<Document> {
    seq(|files|, j requires 0 <= j < |files| => Candidate(root, files[j]))
  }

  /** Every file of the walk, extracted, in walk order. */
  function Candidates(walk: seq<WalkDir>): seq<Document> {
    if walk == [] then []
    else Candidates(walk[..|walk| - 1]) + DirCandidates(walk[|walk| - 1].root, walk[|walk| - 1].files)
  }

  /** The documents of `docs` that pass the tag filter, in their order. */
  function Kept(docs: seq<Document>): (r: seq<Document>)
    ensures |r| <= |docs|
    ensures forall d :: d in r <==> d in docs && Keep(d.text)
  {
    if docs == [] then []
    else
      var last := docs[|docs| - 1];
      var r := Kept(docs[..|docs| - 1]) + (if Keep(last.text) then [last] else []);
      assert docs == docs[..|docs| - 1] + [last];
      r
  }

  lemma KeptSnoc(ys: seq<Document>, c: Document)
    ensures Kept(ys + [c]) == Kept(ys) + (if Keep(c.text) then [c] else [])
  {
    assert (ys + [c])[..|ys|] == ys;
  }

  /** The filter keeps walk order: filtering a concatenation filters each
      part and concatenates the results. */
  lemma {:induction false} KeptAppend(a: seq<Document>, b: seq<Document>)
    ensures Kept(a + b) == Kept(a) + Kept(b)
    decreases |b|
  {
    if b == [] {
      assert a + b == a;
      AppendEmpty(Kept(a));
    } else {
      var init := b[..|b| - 1];
      var c := b[|b| - 1];
      var tail := if Keep(c.text) then [c] else [];
      assert a + b == (a + init) + [c];
      assert b == init + [c];
      KeptAppend(a, init);
      KeptSnoc(a + init, c);
      KeptSnoc(init, c);
      AppendAssoc(Kept(a), Kept(init), tail);
    }
  }

  lemma DirCandidatesSnoc(root: string, files: seq<WalkFile>, j: nat)
    requires j < |files|
    ensures DirCandidates(root, files[..j + 1]) == DirCandidates(root, files[..j]) + [Candidate(root, files[j])]
  {
    var a := DirCandidates(root, files[..j + 1]);
    var b := DirCandidates(root, files[..j]) + [Candidate(root, files[j])];
    assert |a| == |b|;
    forall k | 0 <= k < |a|
      ensures a[k] == b[k]
    {
      assert files[..j + 1][k] == files[k];
      if k < j {
        assert files[..j][k] == files[k];
        assert b[k] == DirCandidates(root, files[..j])[k];
      }
    }
  }

  lemma CandidatesSnoc(walk: seq<WalkDir>, i: nat)
    requires i < |walk|
    ensures Candidates(walk[..i + 1]) == Candidates(walk[..i]) + DirCandidates(walk[i].root, walk[i].files)
  {
    assert walk[..i + 1][..i] == walk[..i];
  }

  /** A candidate of the walk is a candidate of one of its directory steps,
      and every candidate of every step is one. */
  lemma {:induction false} CandidatesMembership(walk: seq<WalkDir>, d: Document)
    ensures d in Candidates(walk) <==>
              exists i :: 0 <= i < |walk| && d in DirCandidates(walk[i].root, walk[i].files)
  {
    if walk != [] {
      var n := |walk| - 1;
      var init := walk[..n];
      CandidatesMembership(init, d);
      assert Candidates(walk) == Candidates(init) + DirCandidates(walk[n].root, walk[n].files);
      assert forall i :: 0 <= i < n ==> init[i] == walk[i];
      if d in Candidates(walk) {
        if d in Candidates(init) {
          var i :| 0 <= i < n && d in DirCandidates(init[i].root, init[i].files);
          assert d in DirCandidates(walk[i].root, walk[i].files);
        } else {
          assert d in DirCandidates(walk[n].root, walk[n].files);
        }
      } else {
        forall i | 0 <= i < |walk|
          ensures d !in DirCandidates(walk[i].root, walk[i].files)
        {
          if i < n {
            assert init[i] == walk[i];
          }
        }
      }
    }
  }

  /** `process_directory`: walks the directories in order and, inside each,
      the files in order, yielding `(filepath, text)` for every extracted text
      the tag filter keeps. */
  method ProcessDirectory(walk: seq<WalkDir>) returns (docs: seq<Document>)
    ensures docs == Kept(Candidates(walk))
  {
    docs := [];
    var i := 0;
    while i < |walk|
      invariant 0 <= i <= |walk|
      invariant docs == Kept(Candidates(walk[..i]))
    {
      var root := walk[i].root;
      var files := walk[i].files;
      ghost var done := Candidates(walk[..i]);
      var j := 0;
      assert files[..0] == [];
      AppendEmpty(done);
      while j < |files|
        invariant 0 <= j <= |files|
        invariant docs == Kept(done + DirCandidates(root, files[..j]))
      {
        var filepath := JoinPath(root, files[j].name);
        var text := ExtractText(filepath, files[j].outcome);
        ghost var c := Candidate(root, files[j]);
        assert Document(filepath, text) == c;
        DirCandidatesSnoc(root, files, j);
        AppendAssoc(done, DirCandidates(root, files[..j]), [c]);
        KeptSnoc(done + DirCandidates(root, files[..j]), c);
        if !StartsWith(text, "[INFO]") && !StartsWith(text, "[ERROR]") {
          docs := docs + [Document(filepath, text)];
        }
        j := j + 1;
      }
      assert files[..j] == files;
      CandidatesSnoc(walk, i);
      i := i + 1;
    }
    assert walk[..i] == walk;
  }
}
