/**
 * The analysis client: the shape of the backend's JSON answer, the
 * multipart form sent with the drawings and the persona, and the address
 * it is posted to.
 */
module Api {
  import opened Wrappers

  /** An energy score. Scores are only passed through, never computed with. */
  type Score = real

  /** A picked image file: its name and its bytes. */
  datatype File = File(name: string, bytes: seq<bv8>)

  /** The structured part of the answer. */
  datatype AnalysisData = AnalysisData(
    mindExpression: string,
    personaMindSentence: string,
    personaEnergySentence: string,
    wordCloud: seq<string>,
    top5Colors: seq<string>,
    energyChart: map<string, Score>)

  datatype CommentarySection = CommentarySection(title: string, content: string)

  /** The whole JSON body the backend returns for one analysis. */
  datatype AnalysisResponse = AnalysisResponse(
    analysisResult: AnalysisData,
    characterCommentary: string,
    commentarySections: seq<CommentarySection>)

  /** A form field value: a binary part or a text part. */
  datatype FormValue = Blob(file: File) | Text(text: string)

  datatype FormEntry = FormEntry(name: string, value: FormValue)

  /** The POST that is sent: target address and form body. */
  datatype Request = Request(url: string, form: seq<FormEntry>)

  /** What the network call produced: the decoded body, or a thrown error. */
  datatype Outcome = Success(data: AnalysisResponse) | Failure

  const FilesField: string := "files"
  const PersonaField: string := "persona"
  const DefaultBackend: string := "http://localhost:8000"
  const AnalyzePath: string := "/api/analyze"

  /** The browser's `FormData`: an ordered list of named entries, appended to in place. */
  class FormData {
    var entries: seq<FormEntry>

    constructor ()
      ensures entries == []
    {
      entries := [];
    }

    method Append(name: string, value: FormValue)
      modifies this
      ensures entries == old(entries) + [FormEntry(name, value)]
    {
      entries := entries + [FormEntry(name, value)];
    }
  }

  /** One `files` part per picked file, in the order given. */
  function FileParts(files: seq<File>): (r: seq<FormEntry>)
    ensures |r| == |files|
    ensures forall k :: 0 <= k < |files| ==> r[k] == FormEntry(FilesField, Blob(files[k]))
  {
    seq(|files|, k requires 0 <= k < |files| => FormEntry(FilesField, Blob(files[k])))
  }

  /** The form the client sends: every file under `files`, then the persona. */
  function FormFor(files: seq<File>, persona: string): seq<FormEntry>
  {
    FileParts(files) + [FormEntry(PersonaField, Text(persona))]
  }

  /** `FormData.getAll(name)`: the values stored under `name`, in order. */
  function GetAll(entries: seq<FormEntry>, name: string): (r: seq<FormValue>)
    ensures |r| <= |entries|
  {
    if entries == [] then []
    else (if entries[0].name == name then [entries[0].value] else []) + GetAll(entries[1..], name)
  }

  /** The form-building part of `analyzeImage`: a loop appending each file, then the persona. */
  method BuildForm(files: seq<File>, persona: string) returns (entries: seq<FormEntry>)
    ensures entries == FormFor(files, persona)
    ensures |entries| == |files| + 1
    ensures forall k :: 0 <= k < |files| ==> entries[k] == FormEntry(FilesField, Blob(files[k]))
    ensures entries[|files|] == FormEntry(PersonaField, Text(persona))
  {
    var form := new FormData();
    var i := 0;
    while i < |files|
      invariant 0 <= i <= |files|
      invariant form.entries == FileParts(files[..i])
    {
      form.Append(FilesField, Blob(files[i]));
      i := i + 1;
    }
    assert files[..i] == files;
    form.Append(PersonaField, Text(persona));
    entries := form.entries;
  }

  lemma {:induction false} GetAllConcat(a: seq<FormEntry>, b: seq<FormEntry>, name: string)
    ensures GetAll(a + b, name) == GetAll(a, name) + GetAll(b, name)
    decreases |a|
  {
    if a == [] {
      assert a + b == b;
    } else {
      var head := if a[0].name == name then [a[0].value] else [];
      assert (a + b)[0] == a[0];
      assert (a + b)[1..] == a[1..] + b;
      assert GetAll(a + b, name) == head + GetAll(a[1..] + b, name);
      GetAllConcat(a[1..], b, name);
      assert GetAll(a, name) == head + GetAll(a[1..], name);
    }
  }

  lemma {:induction false} GetAllFileParts(files: seq<File>, name: string)
    ensures name == FilesField ==> GetAll(FileParts(files), name) == seq(|files|, k requires 0 <= k < |files| => Blob(files[k]))
    ensures name != FilesField ==> GetAll(FileParts(files), name) == []
    decreases |files|
  {
    if files != [] {
      assert FileParts(files) == [FileParts(files)[0]] + FileParts(files[1..]);
      GetAllConcat([FileParts(files)[0]], FileParts(files[1..]), name);
      GetAllFileParts(files[1..], name);
    }
  }

  /**
   * What the backend reads back from the form: exactly the picked files,
   * in order, under the repeated `files` field, and exactly one `persona`
   * value, equal to the argument and placed after every file.
   */
  lemma FormRoundTrip(files: seq<File>, persona: string)
    ensures GetAll(FormFor(files, persona), FilesField) == seq(|files|, k requires 0 <= k < |files| => Blob(files[k]))
    ensures GetAll(FormFor(files, persona), PersonaField) == [Text(persona)]
    ensures forall k :: 0 <= k < |FormFor(files, persona)| && FormFor(files, persona)[k].name == PersonaField ==> k == |files|
  {
    GetAllConcat(FileParts(files), [FormEntry(PersonaField, Text(persona))], FilesField);
    GetAllConcat(FileParts(files), [FormEntry(PersonaField, Text(persona))], PersonaField);
    GetAllFileParts(files, FilesField);
    GetAllFileParts(files, PersonaField);
  }

  /**
   * The backend base address: the configured `NEXT_PUBLIC_API_URL` when it
   * is a non-empty string; otherwise (unset, or set to "") the local default.
   */
  function BackendUrl(configured: Option<string>): (r: string)
    ensures configured.Some? && configured.value != "" ==> r == configured.value
    ensures configured.None? || configured.value == "" ==> r == DefaultBackend
    ensures r != ""
  {
    if configured.Some? && configured.value != "" then configured.value else DefaultBackend
  }

  /** The address the form is posted to: the base followed by the endpoint path, unaltered. */
  function AnalyzeUrl(configured: Option<string>): (r: string)
    ensures |r| == |BackendUrl(configured)| + |AnalyzePath|
    ensures r[..|BackendUrl(configured)|] == BackendUrl(configured)
    ensures r[|BackendUrl(configured)|..] == AnalyzePath
  {
    BackendUrl(configured) + AnalyzePath
  }

  /**
   * `analyzeImage`: builds the form, posts it to the analyze address and
   * hands back the response body unchanged; a failed call yields nothing.
   * `transport` stands for the network and the backend behind it.
   */
  method AnalyzeImage(files: seq<File>, persona: string, configured: Option<string>, transport: Request -> Outcome)
    returns (sent: Request, body: Option<AnalysisResponse>)
    ensures sent == Request(AnalyzeUrl(configured), FormFor(files, persona))
    ensures transport(sent).Success? ==> body == Some(transport(sent).data)
    ensures transport(sent).Failure? ==> body == None
  {
    var form := BuildForm(files, persona);
    sent := Request(AnalyzeUrl(configured), form);
    match transport(sent)
    case Success(data) => body := Some(data);
    case Failure => body := None;
  }
}
