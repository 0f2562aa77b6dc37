/**
 * The pure parts of the browser action layer (`actions.rs`): where documents are written, how
 * generated content is cleaned, the search URL, the wrapping of extracted text, and form filling
 * as a sequence of driver calls that stops at the first failure.
 */
module Actions {
  import opened Wrappers
  import opened Strings
  import opened TaskStore

  // --------------------------------------------------------------- documents

  const DocumentsDir := "documents"

  /** The document kinds a format name selects, ignoring case. */
  datatype DocKind = Markdown | PlainText | JsonDoc | Html | Unknown

  function KindOf(format: string): DocKind {
    var f := Lower(format);
    if f == "markdown" || f == "md" then Markdown
    else if f == "text" || f == "txt" then PlainText
    else if f == "json" then JsonDoc
    else if f == "html" then Html
    else Unknown
  }

  /** The file extension of a format; unknown formats are written as text. */
  function Extension(format: string): (ext: string)
    ensures ext == ".md" <==> Lower(format) == "markdown" || Lower(format) == "md"
    ensures ext == ".json" <==> Lower(format) == "json"
    ensures ext == ".html" <==> Lower(format) == "html"
    ensures ext == ".txt" <==> Lower(format) !in {"markdown", "md", "json", "html"}
  {
    match KindOf(format)
    case Markdown => ".md"
    case PlainText => ".txt"
    case JsonDoc => ".json"
    case Html => ".html"
    case Unknown => ".txt"
  }

  /** The path `create_document` writes to. */
  function DocumentPath(filename: string, format: string): (path: string)
    ensures |path| == |DocumentsDir| + 1 + |filename| + |Extension(format)|
    ensures StartsWith(path, DocumentsDir + "/")
    ensures path[|DocumentsDir| + 1..|path| - |Extension(format)|] == filename
    ensures path[|path| - |Extension(format)|..] == Extension(format)
  {
    var path := DocumentsDir + "/" + filename + Extension(format);
    assert path[..|DocumentsDir| + 1] == DocumentsDir + "/";
    path
  }

  /** Format names that differ only in ASCII case select the same path. */
  lemma DocumentPathIgnoresCase(filename: string, a: string, b: string)
    requires Lower(a) == Lower(b)
    ensures DocumentPath(filename, a) == DocumentPath(filename, b)
  {
  }

  /** What the filesystem answers: whether the directory exists, and the outcome of each call. */
  datatype FileSystem = FileSystem(dirExists: bool, createDir: Outcome<string>, write: Outcome<string>)

  datatype SavedFile = SavedFile(path: string, content: string)

  /** The message returned to the agent and the file written, if any. */
  datatype DocReport = DocReport(message: string, saved: Option<SavedFile>)

  const SavedPrefix := "Document saved: "

  /**
   * `create_document`: makes the directory if it is missing, then writes the file. Every failure
   * is reported inside the message, so the result is never an error.
   */
  function CreateDocument(filename: string, content: string, format: string, fs: FileSystem): (r: Result<DocReport, string>)
    ensures r.Success?
    ensures r.value.saved.Some? <==> (fs.dirExists || fs.createDir.Pass?) && fs.write.Pass?
    ensures r.value.saved.Some? ==>
      && r.value.saved.value == SavedFile(DocumentPath(filename, format), content)
      && StartsWith(r.value.message, SavedPrefix)
      && r.value.message[|SavedPrefix|..] == DocumentPath(filename, format)
    ensures r.value.saved.None? ==> StartsWith(r.value.message, "Error: ")
    ensures !fs.dirExists && fs.createDir.Fail? ==>
      r.value.message == "Error: " + "Failed to create documents directory: " + fs.createDir.error
  {
    if !fs.dirExists && fs.createDir.Fail? then
      var msg := "Error: " + "Failed to create documents directory: " + fs.createDir.error;
      PrefixStarts("Error: ", "Failed to create documents directory: ", fs.createDir.error);
      Success(DocReport(msg, None))
    else
      var path := DocumentPath(filename, format);
      match fs.write
      case Fail(e) =>
        var msg := "Error: " + ("Failed to write file " + path + ": ") + e;
        PrefixStarts("Error: ", "Failed to write file " + path + ": ", e);
        Success(DocReport(msg, None))
      case Pass =>
        var msg := SavedPrefix + path;
        PrefixStarts(SavedPrefix, path, "");
        assert msg + "" == msg;
        Success(DocReport(msg, Some(SavedFile(path, content))))
  }

  lemma PrefixStarts(a: string, b: string, c: string)
    ensures StartsWith(a + b + c, a) && (a + b + c)[|a|..] == b + c
  {
    assert (a + b + c)[..|a|] == a;
    assert (a + b + c)[|a|..] == b + c;
  }

  // ------------------------------------------------------------ code fences

  const Fence := "```"

  /** Every leftmost occurrence of the fence removed. */
  function Unfence(s: string): string {
    ReplaceAll(s, Fence, "")
  }

  /** The first `n` characters of `s` exist and are backticks. */
  predicate Ticks(s: string, n: nat) {
    n <= |s| && forall k :: 0 <= k < n ==> s[k] == '`'
  }

  /** Three leading backticks are exactly a leading fence. */
  lemma TicksFence(s: string)
    ensures Ticks(s, 3) <==> StartsWith(s, Fence)
    ensures |s| > 0 ==> (Ticks(s, 3) <==> s[0] == '`' && Ticks(s[1..], 2))
    ensures |s| > 0 ==> (Ticks(s, 2) <==> s[0] == '`' && Ticks(s[1..], 1))
  {
    if |s| >= 3 && Ticks(s, 3) {
      assert s[..3] == Fence;
    }
  }

  /** A string that does not start with a fence keeps its first character. */
  lemma UnfenceKeepsHead(s: string)
    requires s != [] && !StartsWith(s, Fence)
    ensures Unfence(s) == [s[0]] + Unfence(s[1..])
  {
    assert [s[0]] + s[1..] == s;
    ReplaceSkip(s[0], s[1..], Fence, "");
  }

  lemma UnfenceHead(u: string)
    requires !Ticks(u, 1)
    ensures !Ticks(Unfence(u), 1)
  {
    if u != [] {
      TicksFence(u);
      UnfenceKeepsHead(u);
      assert Unfence(u)[0] == u[0];
    }
  }

  lemma UnfenceTwo(t: string)
    requires !Ticks(t, 2)
    ensures !Ticks(Unfence(t), 2)
  {
    if t != [] {
      TicksFence(t);
      UnfenceKeepsHead(t);
      var u := Unfence(t);
      assert u[0] == t[0] && u[1..] == Unfence(t[1..]);
      if t[0] == '`' {
        UnfenceHead(t[1..]);
        TicksFence(u);
      }
    }
  }

  /**
   * One pass of fence removal leaves no fence behind: a run of `k` backticks keeps only `k % 3`
   * of them, and runs stay separated by the characters between them.
   */
  lemma {:induction false} UnfenceLeavesNone(s: string)
    ensures !Contains(Unfence(s), Fence)
    decreases |s|
  {
    if StartsWith(s, Fence) {
      assert s == Fence + s[3..];
      ReplaceLeading(Fence, s[3..], "");
      assert Unfence(s) == "" + Unfence(s[3..]) == Unfence(s[3..]);
      UnfenceLeavesNone(s[3..]);
    } else if s != [] {
      UnfenceKeepsHead(s);
      var rest := Unfence(s[1..]);
      UnfenceLeavesNone(s[1..]);
      assert ([s[0]] + rest)[1..] == rest;
      TicksFence(s);
      if s[0] == '`' {
        UnfenceTwo(s[1..]);
      }
      TicksFence([s[0]] + rest);
    }
  }

  /** The formats whose generated content is unwrapped, and the opening fence each strips first. */
  function OpeningFence(format: string): Option<string> {
    match KindOf(format)
    case Markdown => Some("```markdown")
    case Html => Some("```html")
    case JsonDoc => Some("```json")
    case _ => None
  }

  /**
   * The clean-up of generated content: for markdown, html and json, strip the format's opening
   * fence, then every fence, then surrounding whitespace; any other format is kept as it is.
   */
  function CleanGenerated(format: string, generated: string): (r: string)
    ensures OpeningFence(format).None? ==> r == generated
    ensures OpeningFence(format).Some? ==> !Contains(r, Fence)
    ensures OpeningFence(format).Some? ==> Trimmed(r)
  {
    match OpeningFence(format)
    case None => generated
    case Some(open) => Unwrap(open, generated)
  }

  /** Strips the opening fence `open`, then every fence, then surrounding whitespace. */
  function Unwrap(open: string, generated: string): (r: string)
    requires open != []
    ensures !Contains(r, Fence)
    ensures Trimmed(r)
  {
    var unfenced := Unfence(ReplaceAll(generated, open, ""));
    UnfenceLeavesNone(ReplaceAll(generated, open, ""));
    TrimKeepsAbsent(unfenced, Fence);
    Trim(unfenced)
  }

  /** Every opening fence starts with a backtick. */
  lemma OpeningFenceTick(format: string)
    requires OpeningFence(format).Some?
    ensures OpeningFence(format).value != [] && OpeningFence(format).value[0] == '`'
  {
  }

  /** Content without a backtick holds no fence, so cleaning it only trims it. */
  lemma CleanGeneratedPlain(format: string, generated: string)
    requires OpeningFence(format).Some? && '`' !in generated
    ensures CleanGenerated(format, generated) == Trim(generated)
  {
    var open := OpeningFence(format).value;
    OpeningFenceTick(format);
    if Contains(generated, open) { ContainsHead(generated, open); }
    ReplaceAbsent(generated, open, "");
    if Contains(generated, Fence) { ContainsHead(generated, Fence); }
    ReplaceAbsent(generated, Fence, "");
  }

  /**
   * Cleaning only removes: the cleaned content is the generated content with some characters
   * taken out, the rest kept in order.
   */
  lemma CleanGeneratedChars(format: string, generated: string)
    ensures Subsequence(CleanGenerated(format, generated), generated)
    ensures forall i :: 0 <= i < |CleanGenerated(format, generated)| ==> CleanGenerated(format, generated)[i] in generated
  {
    if OpeningFence(format).Some? {
      var open := OpeningFence(format).value;
      OpeningFenceTick(format);
      var stripped := ReplaceAll(generated, open, "");
      var unfenced := Unfence(stripped);
      ReplaceAllChars(generated, open, "");
      ReplaceAllChars(stripped, Fence, "");
      var a := TrimIsSlice(unfenced);
      var r := Trim(unfenced);
      forall i | 0 <= i < |r| ensures r[i] in generated {
        assert r[i] == unfenced[a + i];
      }
      ReplaceRemoves(generated, open);
      ReplaceRemoves(stripped, Fence);
      TrimSubsequence(unfenced);
      SubsequenceTrans(unfenced, stripped, generated);
      SubsequenceTrans(r, unfenced, generated);
    } else {
      SliceSubsequence(generated, 0, |generated|);
      assert generated[0..|generated|] == generated;
    }
  }

  /**
   * A document wrapped the way the model is asked not to wrap it, an opening fence for the
   * format, the content, and a closing fence, comes out as the content alone, trimmed.
   */
  lemma CleanGeneratedFenced(format: string, content: string)
    requires OpeningFence(format).Some? && '`' !in content
    ensures CleanGenerated(format, OpeningFence(format).value + content + Fence) == Trim(content)
  {
    var open := OpeningFence(format).value;
    OpeningFenceTick(format);
    ReplaceOpening(open, content, Fence);
    ReplaceClosing(content, Fence);
  }

  const GenerateFailedPrefix := "Error: Failed to generate document: "

  /**
   * `generate_and_save_document`, given the model's reply to the document prompt: a failed
   * request is reported without writing anything; otherwise the cleaned content is saved.
   */
  function GenerateDocument(filename: string, format: string, reply: Result<string, string>, fs: FileSystem): (r: Result<DocReport, string>)
    ensures r.Success?
    ensures reply.Failure? ==> r.value == DocReport(GenerateFailedPrefix + reply.error, None)
    ensures reply.Success? ==> r == CreateDocument(filename, CleanGenerated(format, reply.value), format, fs)
    ensures r.value.saved.Some? && OpeningFence(format).Some? ==> !Contains(r.value.saved.value.content, Fence)
  {
    match reply
    case Failure(e) => Success(DocReport(GenerateFailedPrefix + e, None))
    case Success(g) => CreateDocument(filename, CleanGenerated(format, g), format, fs)
  }

  // ------------------------------------------------------------------ search

  const SearchPrefix := "https://duckduckgo.com/?q="

  /** `search_query`: the search engine URL for the percent-encoded term. */
  function SearchUrl(term: string, encode: string -> string): (url: string)
    ensures StartsWith(url, SearchPrefix)
  {
    var url := SearchPrefix + encode(term);
    assert url[..|SearchPrefix|] == SearchPrefix;
    url
  }

  /** The term a search URL asks for, read back with the decoder. */
  function SearchTerm(url: string, decode: string -> string): Option<string> {
    if StartsWith(url, SearchPrefix) then Some(decode(url[|SearchPrefix|..])) else None
  }

  /** With a decoder that inverts the encoder, the URL carries the term exactly. */
  lemma SearchRoundTrip(term: string, encode: string -> string, decode: string -> string)
    requires forall x :: decode(encode(x)) == x
    ensures SearchTerm(SearchUrl(term, encode), decode) == Some(term)
  {
    assert (SearchPrefix + encode(term))[|SearchPrefix|..] == encode(term);
  }

  // -------------------------------------------------------------- extraction

  const SummarySeparator := "\n\nSummary: "

  /**
   * `extract_content`: the page body, followed by the model's summary when the summary request
   * succeeds; reading the body is the only failure.
   */
  function ExtractContent(body: Result<string, string>, summary: Result<string, string>): (r: Result<string, string>)
    ensures body.Failure? ==> r == Failure(body.error)
    ensures body.Success? ==> r.Success? && StartsWith(r.value, body.value)
    ensures body.Success? ==> (r.value == body.value <==> summary.Failure?)
    ensures body.Success? && summary.Success? ==> r.value[|body.value|..] == SummarySeparator + summary.value
  {
    match body
    case Failure(e) => Failure(e)
    case Success(text) =>
      match summary
      case Failure(_) => Success(text)
      case Success(s) =>
        var out := text + SummarySeparator + s;
        assert out[..|text|] == text;
        assert out[|text|..] == SummarySeparator + s;
        Success(out)
  }

  const AnalysisFailed := "Error: Failed to generate AI response"

  /**
   * `extract_information`: the model's analysis of the page with fences and newlines removed,
   * or a fixed error message when the request fails; reading the body is the only failure.
   */
  function ExtractInformation(body: Result<string, string>, reply: Result<string, string>): (r: Result<string, string>)
    ensures body.Failure? ==> r == Failure(body.error)
    ensures body.Success? ==> r.Success? && '\n' !in r.value
    ensures body.Success? && reply.Failure? ==> r.value == AnalysisFailed
    ensures body.Success? && reply.Success? ==> r.value == CleanReply(reply.value)
  {
    match body
    case Failure(e) => Failure(e)
    case Success(_) =>
      match reply
      case Failure(_) => Success(AnalysisFailed)
      case Success(text) => Success(CleanReply(text))
  }

  // ------------------------------------------------------------------- forms

  /** A form field: the CSS selector to find and the text to type into it. */
  datatype FormField = FormField(selector: string, value: string)

  /** The outcome of typing every field in order, stopping at the first failure. */
  function SendAll(fields: seq<FormField>, send: FormField -> Outcome<string>): (r: Outcome<string>)
    ensures r.Pass? <==> forall i :: 0 <= i < |fields| ==> send(fields[i]).Pass?
    ensures r.Fail? ==> exists i :: 0 <= i < |fields| && r == send(fields[i]) && forall j :: 0 <= j < i ==> send(fields[j]).Pass?
    decreases |fields|
  {
    if fields == [] then Pass
    else
      match send(fields[0])
      case Fail(e) => Fail(e)
      case Pass =>
        var rest := SendAll(fields[1..], send);
        assert forall i :: 1 <= i < |fields| ==> fields[i] == fields[1..][i - 1];
        rest
  }

  /**
   * `fill_form`: finds each field and types its value, in order, stopping at the first driver
   * failure. `send` is the driver's outcome for a field; `attempted` counts the calls made.
   */
  method FillForm(fields: seq<FormField>, send: FormField -> Outcome<string>) returns (attempted: nat, r: Outcome<string>)
    ensures r == SendAll(fields, send)
    ensures attempted <= |fields|
    ensures r.Pass? <==> forall i :: 0 <= i < |fields| ==> send(fields[i]).Pass?
    ensures r.Pass? ==> attempted == |fields|
    ensures r.Fail? ==> 1 <= attempted && r == send(fields[attempted - 1])
    ensures forall i :: 0 <= i < attempted - 1 ==> send(fields[i]).Pass?
  {
    attempted := 0;
    while attempted < |fields|
      invariant attempted <= |fields|
      invariant forall i :: 0 <= i < attempted ==> send(fields[i]).Pass?
    {
      var outcome := send(fields[attempted]);
      attempted := attempted + 1;
      if outcome.Fail? {
        return attempted, outcome;
      }
    }
    r := Pass;
  }

  /**
   * The fields of `fill_form_with_user_input_credentials`: each selector with the line typed for
   * it at the prompt, trimmed. `lines(i)` is the `i`-th line read from standard input.
   */
  function CredentialFields(selectors: seq<string>, lines: nat -> string): (fields: seq<FormField>)
    ensures |fields| == |selectors|
    ensures forall i :: 0 <= i < |fields| ==> fields[i].selector == selectors[i]
    ensures forall i :: 0 <= i < |fields| ==> fields[i].value == Trim(lines(i))
  {
    seq(|selectors|, i requires 0 <= i < |selectors| => FormField(selectors[i], Trim(lines(i))))
  }

  /** A typed credential never carries surrounding whitespace, such as the line's own newline. */
  lemma CredentialsTrimmed(selectors: seq<string>, lines: nat -> string, i: nat)
    requires i < |selectors|
    ensures var v := CredentialFields(selectors, lines)[i].value;
      Trimmed(v)
  {
  }
}
