/**
 * The first bot version (app.py): a chat assistant that, after each
 * message, has the model read the whole conversation back, pulls the
 * user's name, phone and service out of its JSON answer and records them in
 * the lead sheet, keyed by the sender id.
 */
module LeadBot {
  import opened Wrappers
  import opened Text
  import opened Sheet
  import opened Chat
  import opened Json

  /** The reply sent when the model call fails. */
  const Apology := "ခဏနေမှ ပြန်မေးပေးပါခင်ဗျာ။"

  // ---------------------------------------------------------------------------
  // The lead sheet: four columns, id, name, phone, service
  // ---------------------------------------------------------------------------

  /** The three fields read from the extracted object, each defaulting to "N/A". */
  datatype Contact = Contact(name: Cell, phone: Cell, service: Cell)

  function ReadContact(rec: Record): Contact {
    Contact(Get(rec, "name", NA), Get(rec, "phone", NA), Get(rec, "service", NA))
  }

  /** Nothing was learnt: all three fields are "N/A". */
  predicate Unknown(c: Contact) {
    c.name == NA && c.phone == NA && c.service == NA
  }

  /**
   * The sender's existing row after the save: each field that is not "N/A"
   * overwrites its column (an empty value too); the rest is left alone.
   */
  function Filled(row: Row, c: Contact): (r: Row)
    ensures CellAt(r, 2) == if c.name != NA then Some(c.name) else CellAt(row, 2)
    ensures CellAt(r, 3) == if c.phone != NA then Some(c.phone) else CellAt(row, 3)
    ensures CellAt(r, 4) == if c.service != NA then Some(c.service) else CellAt(row, 4)
    ensures forall col :: col < 2 || 4 < col ==> CellAt(r, col) == CellAt(row, col)
  {
    WriteIf(WriteIf(WriteIf(row, c.name != NA, 2, c.name), c.phone != NA, 3, c.phone), c.service != NA, 4, c.service)
  }

  /** The row appended for a new sender: exactly four columns, "N/A" values included. */
  function ContactRow(id: string, c: Contact): (r: Row)
    ensures forall col :: col in r <==> 1 <= col <= 4
    ensures r[1] == Str(id) && r[2] == c.name && r[3] == c.phone && r[4] == c.service
  {
    RowOf([Str(id), c.name, c.phone, c.service])
  }

  /**
   * The sheet after `save_to_google_sheet`: untouched when nothing was
   * learnt; otherwise the first row holding the sender id is filled in, or a
   * row is appended when there is none.
   */
  function Merge(rows: seq<Row>, id: string, c: Contact): (r: seq<Row>)
    ensures Unknown(c) ==> r == rows
    ensures !Unknown(c) && FindRow(rows, id).Some? ==>
      |r| == |rows| && r[FindRow(rows, id).value] == Filled(rows[FindRow(rows, id).value], c)
    ensures !Unknown(c) && FindRow(rows, id).None? ==> |r| == |rows| + 1 && r[|rows|] == ContactRow(id, c)
    ensures forall j :: 0 <= j < |rows| && FindRow(rows, id) != Some(j) ==> r[j] == rows[j]
    ensures !Unknown(c) ==> FindRow(r, id).Some?
    ensures UniqueIds(rows) ==> UniqueIds(r)
  {
    if Unknown(c) then rows
    else
      match FindRow(rows, id)
      case Some(i) =>
        var row := Filled(rows[i], c);
        FindAfterWrite(rows, i, row, id);
        UniqueAfterWrite(rows, i, row);
        rows[i := row]
      case None =>
        var row := ContactRow(id, c);
        FindAfterAppend(rows, row, id);
        UniqueAfterAppend(rows, row, id);
        rows + [row]
  }

  /** When the sender has a row and something was learnt, the save rewrites that row alone. */
  lemma MergeFound(rows: seq<Row>, id: string, c: Contact, k: nat)
    requires !Unknown(c) && FindRow(rows, id) == Some(k)
    ensures Merge(rows, id, c) == rows[k := Filled(rows[k], c)]
  {
  }

  /** Filling a row twice with the same fields writes nothing new the second time. */
  lemma FilledIdempotent(row: Row, c: Contact)
    ensures Filled(Filled(row, c), c) == Filled(row, c)
  {
    var once := Filled(row, c);
    var again := Filled(once, c);
    forall col ensures CellAt(again, col) == CellAt(once, col) { }
    SameCells(again, once);
  }

  /** Filling the appended row with the fields it was built from changes nothing. */
  lemma ContactRowSettled(id: string, c: Contact)
    ensures Filled(ContactRow(id, c), c) == ContactRow(id, c)
  {
    var row := ContactRow(id, c);
    var again := Filled(row, c);
    forall col ensures CellAt(again, col) == CellAt(row, col) { }
    SameCells(again, row);
  }

  /** Saving the same extraction twice leaves the sheet as saving it once. */
  lemma MergeIdempotent(rows: seq<Row>, id: string, c: Contact)
    ensures Merge(Merge(rows, id, c), id, c) == Merge(rows, id, c)
  {
    if !Unknown(c) {
      var once := Merge(rows, id, c);
      var k := FindRow(once, id).value;
      MergeFound(once, id, c, k);
      if FindRow(rows, id).Some? {
        assert FindRow(rows, id) == Some(k) by {
          FindAfterWrite(rows, FindRow(rows, id).value, once[FindRow(rows, id).value], id);
        }
        FilledIdempotent(rows[k], c);
      } else {
        assert k == |rows| by {
          FindAfterAppend(rows, ContactRow(id, c), id);
        }
        ContactRowSettled(id, c);
      }
      assert Filled(once[k], c) == once[k];
      assert once[k := once[k]] == once;
    }
  }

  /**
   * `save_to_google_sheet`: with no sheet (missing credentials) nothing
   * happens; otherwise the cell writes or the append of the source leave
   * the sheet as `Merge` describes.
   */
  method SaveToGoogleSheet(sheet: Table?, senderId: string, extracted: Record)
    modifies sheet
    ensures sheet != null ==> sheet.rows == Merge(old(sheet.rows), senderId, ReadContact(extracted))
  {
    if sheet == null {
      return;
    }
    var name := Get(extracted, "name", NA);
    var phone := Get(extracted, "phone", NA);
    var service := Get(extracted, "service", NA);
    if name == NA && phone == NA && service == NA {
      return;
    }
    var cell := FindRow(sheet.rows, senderId);
    match cell
    case Some(i) =>
      FillRow(sheet, i + 1, Contact(name, phone, service));
      MergeFound(old(sheet.rows), senderId, Contact(name, phone, service), i);
    case None =>
      sheet.AppendRow([Str(senderId), name, phone, service]);
  }

  /** The three conditional cell writes on the sender's row (1-based `row`). */
  method FillRow(sheet: Table, row: nat, c: Contact)
    requires 1 <= row <= |sheet.rows|
    modifies sheet
    ensures sheet.rows == old(sheet.rows)[row - 1 := Filled(old(sheet.rows)[row - 1], c)]
  {
    sheet.WriteCellIf(row, c.name != NA, 2, c.name);
    sheet.WriteCellIf(row, c.phone != NA, 3, c.phone);
    sheet.WriteCellIf(row, c.service != NA, 4, c.service);
    assert sheet.rows == old(sheet.rows)[row - 1 := Filled(old(sheet.rows)[row - 1], c)];
  }

  // ---------------------------------------------------------------------------
  // Reading the conversation back to the model
  // ---------------------------------------------------------------------------

  /** The speaker label of a turn: the user's turns and everyone else's (the model's). */
  function Speaker(role: string): string {
    if role == UserRole then "User" else "Bot"
  }

  /** One transcript line: label, colon, the turn's first text part, newline. */
  function Line(t: Turn): string
    requires t.parts != []
  {
    Speaker(t.role) + ": " + t.parts[0] + "\n"
  }

  /** The rendered history, or None when a turn has no part (the loop raises there). */
  function Transcript(history: seq<Turn>): Option<string> {
    if history == [] then Some("")
    else
      var last := history[|history| - 1];
      match Transcript(history[..|history| - 1])
      case None => None
      case Some(text) => if last.parts == [] then None else Some(text + Line(last))
  }

  /** The transcript exists exactly when every turn has a text part. */
  lemma {:induction false} TranscriptDefined(history: seq<Turn>)
    ensures Transcript(history).Some? <==> forall i :: 0 <= i < |history| ==> history[i].parts != []
    decreases |history|
  {
    if history != [] {
      var init := history[..|history| - 1];
      TranscriptDefined(init);
      assert forall i :: 0 <= i < |init| ==> init[i] == history[i];
    }
  }

  lemma TranscriptSnoc(history: seq<Turn>, t: Turn)
    requires Transcript(history).Some? && t.parts != []
    ensures Transcript(history + [t]) == Some(Transcript(history).value + Line(t))
  {
    assert (history + [t])[..|history|] == history;
  }

  /**
   * An answered message adds exactly two lines to the transcript: the
   * user's message and the model's answer.
   */
  lemma TranscriptOfExchange(history: seq<Turn>, message: string, answer: string)
    requires Transcript(history).Some?
    ensures Transcript(Exchanged(history, message, Some(answer))) ==
      Some(Transcript(history).value + ("User: " + message + "\n") + ("Bot: " + answer + "\n"))
  {
    var user := Turn(UserRole, [message]);
    var model := Turn(ModelRole, [answer]);
    assert Exchanged(history, message, Some(answer)) == (history + [user]) + [model];
    TranscriptSnoc(history, user);
    TranscriptSnoc(history + [user], model);
    ExchangeLines(message, answer);
  }

  lemma ExchangeLines(message: string, answer: string)
    ensures Line(Turn(UserRole, [message])) == "User: " + message + "\n"
    ensures Line(Turn(ModelRole, [answer])) == "Bot: " + answer + "\n"
  {
    assert Speaker(ModelRole) == "Bot";
  }

  /** The rendering loop of `check_and_extract_lead`. */
  method RenderHistory(history: seq<Turn>) returns (text: Option<string>)
    ensures text == Transcript(history)
  {
    var rendered := "";
    var i := 0;
    while i < |history|
      invariant 0 <= i <= |history|
      invariant Transcript(history[..i]) == Some(rendered)
    {
      var message := history[i];
      assert history[..i + 1] == history[..i] + [message];
      if message.parts == [] {
        assert history[..i + 1][..i] == history[..i];
        NoTranscriptAfter(history, i + 1);
        return None;
      }
      TranscriptSnoc(history[..i], message);
      rendered := rendered + Line(message);
      i := i + 1;
    }
    assert history[..i] == history;
    return Some(rendered);
  }

  /** A prefix without a transcript leaves the whole history without one. */
  lemma NoTranscriptAfter(history: seq<Turn>, n: nat)
    requires n <= |history| && Transcript(history[..n]).None?
    ensures Transcript(history).None?
  {
    TranscriptDefined(history[..n]);
    var i :| 0 <= i < n && history[..n][i].parts == [];
    assert history[i].parts == [];
    TranscriptDefined(history);
  }

  /**
   * The extraction request sent to the model: its instructions, the
   * transcript after "History: ", then the expected output format. The
   * wording is placeholder text, since the model's answer is a parameter.
   */
  const PromptHead := "<extraction instructions>\nHistory: "
  const PromptTail := "\n<output format>\n"

  function Prompt(transcript: string): string {
    PromptHead + transcript + PromptTail
  }

  // ---------------------------------------------------------------------------
  // Cutting the JSON object out of the model's answer
  // ---------------------------------------------------------------------------

  const FenceJson := "```json"
  const Fence := "```"

  /** `text.replace("```json", "").replace("```", "")`. */
  function StripFences(text: string): string {
    RemoveAll(RemoveAll(text, FenceJson), Fence)
  }

  /** Python's `s[start:end]` for `0 <= start` and `0 <= end`. */
  function Slice(s: string, start: nat, end: nat): (r: string)
    ensures |r| == if start < end && start < |s| then (if end < |s| then end else |s|) - start else 0
    ensures forall k :: 0 <= k < |r| ==> r[k] == s[start + k]
  {
    var e := if end < |s| then end else |s|;
    if start < e then s[start..e] else []
  }

  /** `s.find(c)` for one character. */
  lemma FindChar(s: string, c: char)
    ensures IndexOf(s, [c]).Some? <==> c in s
    ensures IndexOf(s, [c]).Some? ==> s[IndexOf(s, [c]).value] == c
    ensures IndexOf(s, [c]).Some? ==> forall j :: 0 <= j < IndexOf(s, [c]).value ==> s[j] != c
  {
    var r := IndexOf(s, [c]);
    if Contains(s, [c]) {
      var k :| 0 <= k <= |s| && Occurs(s, [c], k);
      assert s[k..k + 1][0] == s[k];
    }
    if c in s {
      var k :| 0 <= k < |s| && s[k] == c;
      assert s[k..k + 1] == [c];
      assert Occurs(s, [c], k);
    }
    if r.Some? {
      assert s[r.value..r.value + 1] == [c];
      forall j | 0 <= j < r.value ensures s[j] != c {
        assert !Occurs(s, [c], j);
        assert s[j..j + 1] == [s[j]];
      }
    }
  }

  /**
   * Lines 106-108: from the first `{` up to and including the last `}`;
   * empty when no `}` follows the first `{`.
   */
  function JsonCandidate(text: string): (r: string)
    requires '{' in text
    ensures r != [] ==> r[0] == '{' && r[|r| - 1] == '}' && Contains(text, r)
    ensures r != [] ==> exists i, j :: OuterBraces(text, r, i, j)
    ensures r != [] <==> exists i, j | 0 <= i < j < |text| :: text[i] == '{' && text[j] == '}'
  {
    FindChar(text, '{');
    var start := IndexOf(text, "{").value;
    var end := match LastIndexOf(text, '}') case None => 0 case Some(k) => k + 1;
    var r := Slice(text, start, end);
    CandidateShape(text, start, end, r);
    r
  }

  /**
   * `r` is the stretch of `text` from index `i` through index `j`, with no
   * `{` before it and no `}` after it: it runs from the first `{` to the last `}`.
   */
  predicate OuterBraces(text: string, r: string, i: int, j: int) {
    0 <= i <= j < |text| && r == text[i..j + 1] &&
    (forall k :: 0 <= k < i ==> text[k] != '{') && (forall k :: j < k < |text| ==> text[k] != '}')
  }

  lemma CandidateShape(text: string, start: nat, end: nat, r: string)
    requires start < |text| && text[start] == '{' && forall j :: 0 <= j < start ==> text[j] != '{'
    requires end == match LastIndexOf(text, '}') case None => 0 case Some(k) => k + 1
    requires r == Slice(text, start, end)
    ensures r != [] ==> r[0] == '{' && r[|r| - 1] == '}' && Contains(text, r)
    ensures r != [] ==> exists i, j :: OuterBraces(text, r, i, j)
    ensures r != [] <==> exists i, j | 0 <= i < j < |text| :: text[i] == '{' && text[j] == '}'
  {
    var last := LastIndexOf(text, '}');
    if last.Some? && start < end {
      CandidateSpan(text, start, last.value, r);
    }
    if exists i, j | 0 <= i < j < |text| :: text[i] == '{' && text[j] == '}' {
      var i, j :| 0 <= i < j < |text| && text[i] == '{' && text[j] == '}';
      CandidateFound(text, start, end, i, j);
    }
  }

  /** A non-empty slice runs from the first `{` to just after the last `}`. */
  lemma CandidateSpan(text: string, start: nat, last: nat, r: string)
    requires start <= last < |text| && text[start] == '{' && text[last] == '}'
    requires forall k :: 0 <= k < start ==> text[k] != '{'
    requires forall k :: last < k < |text| ==> text[k] != '}'
    requires r == Slice(text, start, last + 1)
    ensures r != [] && r[0] == '{' && r[|r| - 1] == '}' && Contains(text, r)
    ensures OuterBraces(text, r, start, last)
  {
    assert r == text[start..last + 1];
    assert Occurs(text, r, start);
  }

  /** A `}` after some `{` lies after the first `{`, so the slice is not empty. */
  lemma CandidateFound(text: string, start: nat, end: nat, i: nat, j: nat)
    requires start < |text| && forall k :: 0 <= k < start ==> text[k] != '{'
    requires end == match LastIndexOf(text, '}') case None => 0 case Some(k) => k + 1
    requires i < j < |text| && text[i] == '{' && text[j] == '}'
    ensures Slice(text, start, end) != []
  {
    assert start <= i;
    assert LastIndexOf(text, '}').Some?;
    assert j < end;
  }

  /**
   * Lines 104-108: None when the answer has no `{` at all; otherwise the
   * candidate cut from the answer with its code fences and surrounding
   * whitespace removed.
   */
  function ExtractJsonSlice(response: string): (r: Option<string>)
    ensures r.None? <==> '{' !in response
    ensures r.Some? ==> Braced(r.value)
  {
    if '{' !in response then None
    else
      var text := Strip(StripFences(response));
      KeepsBrace(response);
      var c := JsonCandidate(text);
      CandidateBraced(text, c);
      Some(c)
  }

  /**
   * The candidate of an answer holding `{` is the first-`{`-to-last-`}`
   * slice of the answer once its fences are removed and it is stripped.
   */
  lemma SliceOfCleaned(response: string)
    requires '{' in response
    ensures '{' in Strip(StripFences(response))
    ensures ExtractJsonSlice(response) == Some(JsonCandidate(Strip(StripFences(response))))
  {
    KeepsBrace(response);
  }

  /** A non-empty candidate opens with `{` and closes with `}`. */
  predicate Braced(c: string) {
    c != [] ==> c[0] == '{' && c[|c| - 1] == '}'
  }

  lemma CandidateBraced(text: string, c: string)
    requires '{' in text && c == JsonCandidate(text)
    ensures Braced(c)
  {
  }

  /** A `{` in the answer survives the fence removal and the stripping. */
  lemma KeepsBrace(response: string)
    requires '{' in response
    ensures '{' in Strip(StripFences(response))
  {
    assert FenceJson == ['`', '`', '`', 'j', 's', 'o', 'n'];
    assert Fence == ['`', '`', '`'];
    RemoveAllKeeps(response, FenceJson, '{');
    RemoveAllKeeps(RemoveAll(response, FenceJson), Fence, '{');
    var s := StripFences(response);
    var k :| 0 <= k < |s| && s[k] == '{';
    StripKeeps(s, k);
  }

  /** An answer that is a bare JSON object, without fences, is cut out whole (whitespace aside). */
  lemma BareObjectPassesThrough(response: string)
    requires '`' !in response
    requires Strip(response) != [] && Braced(Strip(response))
    ensures ExtractJsonSlice(response) == Some(Strip(response))
  {
    var t := Strip(response);
    BraceFromStripped(response, t);
    Fenceless(response);
    CleanedTo(response, response, t);
  }

  /** An answer whose fence-removed, stripped text is braced has that text as its candidate. */
  lemma CleanedTo(response: string, u: string, t: string)
    requires '{' in response && StripFences(response) == u && Strip(u) == t
    requires t != [] && Braced(t)
    ensures ExtractJsonSlice(response) == Some(t)
  {
    SliceOfCleaned(response);
    WholeCandidate(t);
  }

  /** The first character of a stretch of the answer, such as the stripped answer, is a character of the answer. */
  lemma BraceFromStripped(response: string, t: string)
    requires Contains(response, t) && t != [] && t[0] == '{'
    ensures '{' in response
  {
    var i :| 0 <= i <= |response| && Occurs(response, t, i);
    assert response[i..i + |t|][0] == response[i];
  }

  /** An answer wrapped in a ```` ```json ```` fence, with no backquote inside, loses exactly its fences. */
  lemma FencedAnswer(b: string)
    requires '`' !in b
    ensures StripFences(FenceJson + b + Fence) == b
  {
    OpeningFenceRemoved(b);
    ClosingFenceRemoved(b);
  }

  /** The first replacement removes the opening ```` ```json ```` and nothing else. */
  lemma OpeningFenceRemoved(b: string)
    requires '`' !in b
    ensures RemoveAll(FenceJson + b + Fence, FenceJson) == b + Fence
  {
    assert FenceJson == ['`', '`', '`', 'j', 's', 'o', 'n'];
    var s := FenceJson + b + Fence;
    assert s[..|FenceJson|] == FenceJson;
    RemoveAllFirst(s, FenceJson, 0);
    assert s[|FenceJson|..] == b + Fence;
    assert s[..0] == [];
    FenceTooShort(b, FenceJson);
    RemoveAllAbsent(b + Fence, FenceJson);
  }

  /** The second replacement removes the closing ```` ``` ````. */
  lemma ClosingFenceRemoved(b: string)
    requires '`' !in b
    ensures RemoveAll(b + Fence, Fence) == b
  {
    var u := b + Fence;
    ClosingFence(b);
    RemoveAllFirst(u, Fence, |b|);
    assert u[..|b|] == b;
    assert u[|b| + |Fence|..] == [];
  }

  /** After backquote-free text, a closing fence is too short to hold a longer fence. */
  lemma FenceTooShort(b: string, fence: string)
    requires '`' !in b && fence != [] && fence[0] == '`' && |fence| > 3
    ensures !Contains(b + Fence, fence)
  {
    var u := b + Fence;
    forall i | 0 <= i <= |u| ensures !Occurs(u, fence, i) {
      if i < |b| && i + |fence| <= |u| {
        assert u[i..i + |fence|][0] == b[i];
      }
    }
  }

  /** In backquote-free text followed by a fence, the first fence is that closing one. */
  lemma ClosingFence(b: string)
    requires '`' !in b
    ensures FirstOccurrence(b + Fence, Fence, |b|)
  {
    var u := b + Fence;
    assert u[|b|..|b| + |Fence|] == Fence;
    forall j | 0 <= j < |b| ensures !Occurs(u, Fence, j) {
      if j + |Fence| <= |u| {
        assert u[j..j + |Fence|][0] == b[j];
      }
    }
  }

  /** A bare object in a ```` ```json ```` fence is cut out whole, whitespace aside. */
  lemma FencedObjectPassesThrough(b: string)
    requires '`' !in b
    requires Strip(b) != [] && Braced(Strip(b))
    ensures ExtractJsonSlice(FenceJson + b + Fence) == Some(Strip(b))
  {
    var t := Strip(b);
    BraceFromStripped(b, t);
    FencedAnswer(b);
    BraceInFenced(b);
    CleanedTo(FenceJson + b + Fence, b, t);
  }

  lemma BraceInFenced(b: string)
    requires '{' in b
    ensures '{' in FenceJson + b + Fence
  {
    var k :| 0 <= k < |b| && b[k] == '{';
    assert (FenceJson + b + Fence)[|FenceJson| + k] == '{';
  }

  /** Text without a backquote has no fence to remove. */
  lemma Fenceless(s: string)
    requires '`' !in s
    ensures StripFences(s) == s
  {
    NoFence(s, FenceJson);
    RemoveAllAbsent(s, FenceJson);
    NoFence(s, Fence);
    RemoveAllAbsent(s, Fence);
  }

  /** Text that has no backquote contains no fence. */
  lemma NoFence(s: string, fence: string)
    requires fence != [] && fence[0] == '`' && '`' !in s
    ensures !Contains(s, fence)
  {
    forall i | 0 <= i <= |s| ensures !Occurs(s, fence, i) {
      if i + |fence| <= |s| {
        assert s[i..i + |fence|][0] == s[i];
      }
    }
  }

  /** Text that opens with `{` and closes with `}` is its own candidate. */
  lemma WholeCandidate(text: string)
    requires text != [] && text[0] == '{' && text[|text| - 1] == '}'
    ensures JsonCandidate(text) == text
  {
    assert Occurs(text, "{", 0);
    assert LastIndexOf(text, '}') == Some(|text| - 1);
    assert Slice(text, 0, |text|) == text;
  }

  /** The bot of app.py: one chat session per sender. */
  class Bot {
    var sessions: map<string, seq<Turn>>
    /** The opening exchange of every new session (the system instruction and "Acknowledged."). */
    const primer: seq<Turn>

    constructor (primer: seq<Turn>)
      ensures sessions == map[] && this.primer == primer
    {
      this.primer := primer;
      sessions := map[];
    }

    /**
     * `ask_gemini`: a sender without a session gets one, primed; the
     * message is sent and the model's text returned as it is; a failed call
     * (`answer` None) returns the apology and leaves the history as it was.
     */
    method AskGemini(senderId: string, message: string, answer: Option<string>) returns (reply: string)
      modifies this
      ensures sessions == old(sessions)[senderId := Exchanged(Opened(old(sessions), senderId, primer), message, answer)]
      ensures answer.None? ==> reply == Apology
      ensures answer.Some? ==> reply == answer.value
    {
      StartChat(senderId);
      var start := Opened(old(sessions), senderId, primer);
      if answer.None? {
        reply := Apology;
        assert Exchanged(start, message, answer) == start;
      } else {
        SendMessage(senderId, message, answer);
        StoreOverrides(old(sessions), senderId, start, Exchanged(start, message, answer));
        reply := answer.value;
      }
    }

    /** `model.start_chat(history=...)` for a sender without a session. */
    method StartChat(senderId: string)
      modifies this
      ensures sessions == old(sessions)[senderId := Opened(old(sessions), senderId, primer)]
    {
      if senderId !in sessions {
        sessions := sessions[senderId := primer];
      }
    }

    /** `chat.send_message` on the sender's session: the exchange is added to its history. */
    method SendMessage(senderId: string, message: string, answer: Option<string>)
      requires senderId in sessions
      modifies this
      ensures sessions == old(sessions)[senderId := Exchanged(old(sessions)[senderId], message, answer)]
    {
      sessions := sessions[senderId := Exchanged(sessions[senderId], message, answer)];
    }

    /**
     * `check_and_extract_lead`: `generate` is the model's one-shot answer
     * to a prompt (None when the call or its text fails) and `parse` the
     * JSON decoder (None when the text is not a JSON object).
     */
    method CheckAndExtractLead(senderId: string, generate: string -> Option<string>,
                               parse: string -> Option<Record>, sheet: Table?)
      modifies sheet
      ensures sheet != null ==> sheet.rows == AfterExtraction(old(sheet.rows), sessions, senderId, generate, parse)
    {
      if senderId !in sessions {
        return;
      }
      var text := RenderHistory(sessions[senderId]);
      if text.None? {
        return;
      }
      var response := generate(Prompt(text.value));
      if response.None? {
        NoAnswerNoLead(sessions, senderId, generate, parse, text.value);
        return;
      }
      var candidate := ExtractJsonSlice(response.value);
      LeadFromCandidate(sessions, senderId, generate, parse, text.value, response.value, candidate);
      if candidate.None? {
        return;
      }
      var leadData := parse(candidate.value);
      if leadData.Some? {
        SaveToGoogleSheet(sheet, senderId, leadData.value);
      }
    }
  }

  /** The contact the extraction finds for a sender, if the whole chain succeeds. */
  function ExtractedLead(sessions: map<string, seq<Turn>>, senderId: string,
                         generate: string -> Option<string>, parse: string -> Option<Record>): (r: Option<Record>)
    ensures senderId !in sessions ==> r.None?
    ensures senderId in sessions && Transcript(sessions[senderId]).None? ==> r.None?
    ensures r.Some? ==> senderId in sessions && Transcript(sessions[senderId]).Some?
    ensures r.Some? ==> generate(Prompt(Transcript(sessions[senderId]).value)).Some?
    ensures r.Some? ==> '{' in generate(Prompt(Transcript(sessions[senderId]).value)).value
  {
    if senderId !in sessions then None
    else
      match Transcript(sessions[senderId])
      case None => None
      case Some(text) =>
        match generate(Prompt(text))
        case None => None
        case Some(response) =>
          match ExtractJsonSlice(response)
          case None => None
          case Some(candidate) => parse(candidate)
  }

  /** When the model gives no answer to the rendered history, there is no lead. */
  lemma NoAnswerNoLead(sessions: map<string, seq<Turn>>, senderId: string,
                       generate: string -> Option<string>, parse: string -> Option<Record>, text: string)
    requires senderId in sessions && Transcript(sessions[senderId]) == Some(text)
    requires generate(Prompt(text)).None?
    ensures ExtractedLead(sessions, senderId, generate, parse).None?
  {
  }

  /** Once the history renders and the model answers, the lead is what the answer's candidate parses to. */
  lemma LeadFromCandidate(sessions: map<string, seq<Turn>>, senderId: string,
                          generate: string -> Option<string>, parse: string -> Option<Record>,
                          text: string, response: string, candidate: Option<string>)
    requires senderId in sessions && Transcript(sessions[senderId]) == Some(text)
    requires generate(Prompt(text)) == Some(response) && candidate == ExtractJsonSlice(response)
    ensures ExtractedLead(sessions, senderId, generate, parse) == if candidate.Some? then parse(candidate.value) else None
  {
  }

  /** The sheet after the extraction: merged with the extracted contact, or untouched. */
  function AfterExtraction(rows: seq<Row>, sessions: map<string, seq<Turn>>, senderId: string,
                           generate: string -> Option<string>, parse: string -> Option<Record>): seq<Row>
  {
    match ExtractedLead(sessions, senderId, generate, parse)
    case None => rows
    case Some(rec) => Merge(rows, senderId, ReadContact(rec))
  }
}
