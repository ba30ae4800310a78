/**
 * The later bot version (app-7.py): a sales assistant whose model answers
 * carry a `<data>{...}</data>` payload. The payload is saved into the lead
 * sheet, with the phone quoted as text, the last-contact time and the
 * follow-up counter reset, and a stop request forcing the status; the rest
 * of the answer is what the user sees.
 */
module SalesBot {
  import opened Wrappers
  import opened Text
  import opened Sheet
  import opened Chat
  import opened Json

  const NotInterested := "Not Interested"
  const NewStatus := "New"
  /** The reply sent when the model call fails. */
  const Apology := "ခဏလေးနော်၊ လူကြီးမင်း။ စနစ်က ခဏလေး ကြန့်ကြာနေလို့ပါ။"

  /** Python's `str(value)`. */
  function PyStr(c: Cell): string {
    match c
    case Str(s) => s
    case Int(n) => IntToString(n)
    case Bool(b) => if b then "True" else "False"
  }

  /** Python truthiness of a value. */
  predicate Truthy(c: Cell) {
    match c
    case Str(s) => s != ""
    case Int(n) => n != 0
    case Bool(b) => b
  }

  /** The value is neither the "unknown" marker nor empty text. */
  predicate Provided(c: Cell) {
    c != NA && c != Str("")
  }

  /**
   * Marks a phone number as literal text for the sheet by a leading
   * apostrophe; "unknown" and empty values pass through.
   */
  function QuotePhone(phone: Cell): (r: Cell)
    ensures !Provided(phone) ==> r == phone
    ensures Provided(phone) ==> r.Str? && r.s != [] && r.s[0] == '\''
    ensures Provided(phone) ==> r.s == PyStr(phone) || r.s == "'" + PyStr(phone)
    ensures phone.Str? && Provided(phone) && phone.s[0] == '\'' ==> r == phone
    ensures Provided(phone) && (PyStr(phone) == [] || PyStr(phone)[0] != '\'') ==> r.s == "'" + PyStr(phone)
    ensures Provided(r) <==> Provided(phone)
  {
    if !Provided(phone) then phone
    else
      var text := PyStr(phone);
      if text != [] && text[0] == '\'' then Str(text) else Str("'" + text)
  }

  /** Quoting an already quoted phone changes nothing. */
  lemma QuotePhoneIdempotent(phone: Cell)
    ensures QuotePhone(QuotePhone(phone)) == QuotePhone(phone)
  {
  }

  /** A phone given as digits is stored as those same digits behind one apostrophe. */
  lemma QuotePhoneOfNumber(n: int)
    ensures QuotePhone(Int(n)) == Str("'" + IntToString(n))
  {
    var text := IntToString(n);
    assert text[0] == '-' || '0' <= text[0] <= '9';
  }

  /** The fields of one save, read from the payload with their defaults (phone already quoted). */
  datatype Lead = Lead(name: Cell, phone: Cell, service: Cell, status: Cell, stop: bool)

  function ReadLead(rec: Record): (lead: Lead)
    ensures lead.name == (if "name" in rec then rec["name"] else NA)
    ensures lead.service == (if "service" in rec then rec["service"] else NA)
    ensures lead.status == (if "status" in rec then rec["status"] else NA)
    ensures lead.phone == QuotePhone(if "phone" in rec then rec["phone"] else NA)
    ensures "phone" !in rec ==> lead.phone == NA
    ensures !Provided(lead.phone) <==> !Provided(Get(rec, "phone", NA))
    ensures lead.stop <==> "stop_followup" in rec && Truthy(rec["stop_followup"])
  {
    Lead(Get(rec, "name", NA), QuotePhone(Get(rec, "phone", NA)), Get(rec, "service", NA),
         Get(rec, "status", NA), Truthy(Get(rec, "stop_followup", Bool(false))))
  }

  /**
   * The existing row after the sequence of cell writes of one save. Name,
   * phone and service are written only when provided; the status when it is
   * not "N/A"; last contact and counter always; a stop request ticks column 8
   * and overrides column 5 last.
   */
  function UpdatedRow(row: Row, lead: Lead, now: string): (r: Row)
    ensures CellAt(r, 2) == if Provided(lead.name) then Some(lead.name) else CellAt(row, 2)
    ensures CellAt(r, 3) == if Provided(lead.phone) then Some(lead.phone) else CellAt(row, 3)
    ensures CellAt(r, 4) == if Provided(lead.service) then Some(lead.service) else CellAt(row, 4)
    ensures lead.stop ==> CellAt(r, 5) == Some(Str(NotInterested)) && CellAt(r, 8) == Some(Bool(true))
    ensures !lead.stop ==> CellAt(r, 5) == (if lead.status != NA then Some(lead.status) else CellAt(row, 5))
    ensures !lead.stop ==> CellAt(r, 8) == CellAt(row, 8)
    ensures CellAt(r, 6) == Some(Str(now)) && CellAt(r, 7) == Some(Int(0))
    ensures forall c :: c < 2 || 8 < c ==> CellAt(r, c) == CellAt(row, c)
  {
    var r1 := WriteIf(row, Provided(lead.name), 2, lead.name);
    var r2 := WriteIf(r1, Provided(lead.phone), 3, lead.phone);
    var r3 := WriteIf(r2, Provided(lead.service), 4, lead.service);
    var r4 := WriteIf(r3, lead.status != NA, 5, lead.status);
    var r5 := WriteIf(WriteIf(r4, true, 6, Str(now)), true, 7, Int(0));
    WriteIf(WriteIf(r5, lead.stop, 8, Bool(true)), lead.stop, 5, Str(NotInterested))
  }

  /**
   * The row appended for a sender not yet in the sheet: eight columns, the
   * status defaulting to "New", and the stop column False whatever was asked.
   */
  function NewRow(id: string, lead: Lead, now: string): (r: Row)
    ensures forall c :: c in r <==> 1 <= c <= 8
    ensures r[1] == Str(id) && r[2] == lead.name && r[3] == lead.phone && r[4] == lead.service
    ensures r[5] == if lead.status == NA then Str(NewStatus) else lead.status
    ensures r[6] == Str(now) && r[7] == Int(0) && r[8] == Bool(false)
  {
    RowOf([Str(id), lead.name, lead.phone, lead.service,
           if lead.status != NA then lead.status else Str(NewStatus),
           Str(now), Int(0), Bool(false)])
  }

  /**
   * The sheet after one save: the first row holding the sender id is
   * updated in place, or one row is appended when there is none.
   */
  function Upsert(rows: seq<Row>, id: string, lead: Lead, now: string): (r: seq<Row>)
    ensures |r| == if FindRow(rows, id).Some? then |rows| else |rows| + 1
    ensures forall j :: 0 <= j < |rows| && FindRow(rows, id) != Some(j) ==> r[j] == rows[j]
    ensures FindRow(rows, id).Some? ==> r[FindRow(rows, id).value] == UpdatedRow(rows[FindRow(rows, id).value], lead, now)
    ensures FindRow(rows, id).None? ==> r[|rows|] == NewRow(id, lead, now)
    ensures FindRow(r, id) == Some(if FindRow(rows, id).Some? then FindRow(rows, id).value else |rows|)
    ensures UniqueIds(rows) ==> UniqueIds(r)
  {
    match FindRow(rows, id)
    case Some(i) =>
      var row := UpdatedRow(rows[i], lead, now);
      FindAfterWrite(rows, i, row, id);
      UniqueAfterWrite(rows, i, row);
      rows[i := row]
    case None =>
      var row := NewRow(id, lead, now);
      FindAfterAppend(rows, row, id);
      UniqueAfterAppend(rows, row, id);
      rows + [row]
  }

  /** A second delivery of the same payload at the same time leaves the sheet as the first one did, unless it is a stop request from a sender the first delivery inserted. */
  lemma UpsertTwice(rows: seq<Row>, id: string, lead: Lead, now: string)
    requires FindRow(rows, id).Some? || !lead.stop
    ensures Upsert(Upsert(rows, id, lead, now), id, lead, now) == Upsert(rows, id, lead, now)
  {
    var once := Upsert(rows, id, lead, now);
    var k := FindRow(once, id).value;
    UpsertFound(once, id, lead, now, k);
    if FindRow(rows, id).Some? {
      UpdatedRowIdempotent(rows[k], lead, now);
    } else {
      NewRowSettled(id, lead, now);
    }
    assert UpdatedRow(once[k], lead, now) == once[k];
    assert once[k := once[k]] == once;
  }

  /** When the sender has a row, the save rewrites that row alone. */
  lemma UpsertFound(rows: seq<Row>, id: string, lead: Lead, now: string, k: nat)
    requires FindRow(rows, id) == Some(k)
    ensures Upsert(rows, id, lead, now) == rows[k := UpdatedRow(rows[k], lead, now)]
  {
  }

  /** Applying the same save to a row twice writes nothing new the second time. */
  lemma UpdatedRowIdempotent(row: Row, lead: Lead, now: string)
    ensures UpdatedRow(UpdatedRow(row, lead, now), lead, now) == UpdatedRow(row, lead, now)
  {
    var once := UpdatedRow(row, lead, now);
    var again := UpdatedRow(once, lead, now);
    forall c ensures CellAt(again, c) == CellAt(once, c) { }
    SameCells(again, once);
  }

  /** Without a stop request, saving the same data onto the row it created changes nothing. */
  lemma NewRowSettled(id: string, lead: Lead, now: string)
    requires !lead.stop
    ensures UpdatedRow(NewRow(id, lead, now), lead, now) == NewRow(id, lead, now)
  {
    var row := NewRow(id, lead, now);
    var again := UpdatedRow(row, lead, now);
    forall c ensures CellAt(again, c) == CellAt(row, c) { }
    SameCells(again, row);
  }

  /** A stop request from a new sender does not tick the stop column; a repeated delivery does. */
  lemma StopOnNewSender(rows: seq<Row>, id: string, lead: Lead, now: string)
    requires lead.stop && FindRow(rows, id).None?
    ensures |Upsert(rows, id, lead, now)| == |rows| + 1
    ensures Upsert(rows, id, lead, now)[|rows|][8] == Bool(false)
    ensures Upsert(Upsert(rows, id, lead, now), id, lead, now)[|rows|][8] == Bool(true)
  {
    var once := Upsert(rows, id, lead, now);
    assert FindRow(once, id) == Some(|rows|);
    assert CellAt(UpdatedRow(once[|rows|], lead, now), 8) == Some(Bool(true));
  }

  /**
   * The cell writes of `save_to_sheet_async` on the sender's existing row
   * (1-based `row`), in the source's order; the last write to column 5 wins.
   */
  method UpdateLeadRow(sheet: Table, row: nat, name: Cell, phone: Cell, service: Cell,
                       status: Cell, stopFollowup: Cell, now: string)
    requires 1 <= row <= |sheet.rows|
    modifies sheet
    ensures |sheet.rows| == |old(sheet.rows)|
    ensures sheet.rows[row - 1] == UpdatedRow(old(sheet.rows)[row - 1], Lead(name, phone, service, status, Truthy(stopFollowup)), now)
    ensures forall j :: 0 <= j < |sheet.rows| && j != row - 1 ==> sheet.rows[j] == old(sheet.rows)[j]
  {
    sheet.WriteCellIf(row, Provided(name), 2, name);
    sheet.WriteCellIf(row, Provided(phone), 3, phone);
    sheet.WriteCellIf(row, Provided(service), 4, service);
    sheet.WriteCellIf(row, status != NA, 5, status);
    sheet.UpdateCell(row, 6, Str(now));
    sheet.UpdateCell(row, 7, Int(0));
    sheet.WriteCellIf(row, Truthy(stopFollowup), 8, Bool(true));
    sheet.WriteCellIf(row, Truthy(stopFollowup), 5, Str(NotInterested));
  }

  /**
   * `save_to_sheet_async`: with no sheet (missing credentials) nothing
   * happens; otherwise the cell writes and the append of the source, one by
   * one, leave the sheet as `Upsert` describes.
   */
  method SaveToSheetAsync(sheet: Table?, senderId: string, leadData: Record, now: string)
    modifies sheet
    ensures sheet != null ==> sheet.rows == Upsert(old(sheet.rows), senderId, ReadLead(leadData), now)
  {
    if sheet == null {
      return;
    }
    var cell := FindRow(sheet.rows, senderId);
    var name := Get(leadData, "name", NA);
    var phone := Get(leadData, "phone", NA);
    var service := Get(leadData, "service", NA);
    var status := Get(leadData, "status", NA);
    var stopFollowup := Get(leadData, "stop_followup", Bool(false));
    phone := QuotePhone(phone);
    match cell
    case Some(i) =>
      UpdateLeadRow(sheet, i + 1, name, phone, service, status, stopFollowup, now);
    case None =>
      sheet.AppendRow([Str(senderId), name, phone, service,
                       if status != NA then status else Str(NewStatus),
                       Str(now), Int(0), Bool(false)]);
  }

  // ---------------------------------------------------------------------------
  // Splitting a model answer into the saved payload and the shown reply
  // ---------------------------------------------------------------------------

  const DataOpen := "<data>"
  const DataClose := "</data>"

  lemma DelimitersSelfDisjoint()
    ensures SelfDisjoint(DataOpen) && SelfDisjoint(DataClose)
  {
    assert DataOpen[1..] == "data>";
    assert DataClose[1..] == "/data>";
  }

  /** `re.search(r'<data>(.*?)</data>', text, re.DOTALL).group(1)`, or None when it does not match. */
  function ExtractData(text: string): Option<string> {
    FirstSegment(text, DataOpen, DataClose)
  }

  /** `re.sub(r'<data>.*?</data>', '', text, flags=re.DOTALL).strip()`: what the user is shown. */
  function CleanReply(text: string): string {
    Strip(RemoveSegments(text, DataOpen, DataClose))
  }

  /**
   * A model answer made of a text, one data segment and more text: the
   * payload is the segment's content and the reply is the surrounding text.
   */
  lemma SplitTaggedAnswer(pre: string, p: string, post: string)
    requires !Contains(pre, DataOpen) && !Contains(p, DataClose) && !Contains(post, DataOpen)
    ensures ExtractData(pre + DataOpen + p + DataClose + post) == Some(p)
    ensures CleanReply(pre + DataOpen + p + DataClose + post) == Strip(pre + post)
  {
    DelimitersSelfDisjoint();
    FirstSegmentOf(pre, p, post, DataOpen, DataClose);
    RemoveSegmentsFirst(pre, p, post, DataOpen, DataClose);
    UntaggedWithoutOpen(post, DataOpen, DataClose);
    RemoveSegmentsUntagged(post, DataOpen, DataClose);
  }

  /**
   * An answer without a complete data segment (no `<data>` at all, or only
   * ones never closed) saves nothing and is shown stripped.
   */
  lemma SplitUntaggedAnswer(text: string)
    requires !Tagged(text, DataOpen, DataClose)
    ensures ExtractData(text) == None
    ensures CleanReply(text) == Strip(text)
  {
    RemoveSegmentsUntagged(text, DataOpen, DataClose);
  }

  /** The payload the bot saves from an answer, if any: a data segment that parses. */
  function SavedLead(answer: Option<string>, parse: string -> Option<Record>): Option<Record> {
    match answer
    case None => None
    case Some(text) =>
      match ExtractData(text)
      case None => None
      case Some(p) => parse(p)
  }

  /** The sheet after an answer: upserted with the saved payload, or untouched when there is none. */
  function AfterAnswer(rows: seq<Row>, id: string, answer: Option<string>,
                       parse: string -> Option<Record>, now: string): seq<Row> {
    match SavedLead(answer, parse)
    case None => rows
    case Some(rec) => Upsert(rows, id, ReadLead(rec), now)
  }

  /** The bot of app-7.py: one chat session per sender. */
  class Bot {
    var sessions: map<string, seq<Turn>>
    /** The opening exchange of every new session (the knowledge base and the model's answer to it). */
    const primer: seq<Turn>

    constructor (primer: seq<Turn>)
      ensures sessions == map[] && this.primer == primer
    {
      this.primer := primer;
      sessions := map[];
    }

    /**
     * `ask_gemini`: open the sender's session if it has none, send the
     * message, save the answer's payload to the sheet and return the
     * cleaned answer; a failed call returns the apology. `answer` is the
     * model's reply (None when the call fails), `parse` the JSON decoder,
     * `now` the current time and `sheet` the lead sheet (null without
     * credentials).
     */
    method AskGemini(senderId: string, userMessage: string, answer: Option<string>,
                     parse: string -> Option<Record>, sheet: Table?, now: string)
      returns (reply: string)
      modifies this, sheet
      ensures sessions == old(sessions)[senderId := Exchanged(Opened(old(sessions), senderId, primer), userMessage, answer)]
      ensures answer.None? ==> reply == Apology
      ensures answer.Some? ==> reply == CleanReply(answer.value)
      ensures sheet != null ==> sheet.rows == AfterAnswer(old(sheet.rows), senderId, answer, parse, now)
    {
      OpenSession(senderId);
      var start := Opened(old(sessions), senderId, primer);
      if answer.None? {
        reply := Apology;
        assert Exchanged(start, userMessage, answer) == start;
        assert SavedLead(answer, parse).None?;
      } else {
        SendMessage(senderId, userMessage, answer);
        StoreOverrides(old(sessions), senderId, start, Exchanged(start, userMessage, answer));
        assert sheet != null ==> sheet.rows == old(sheet.rows);
        reply := CleanReply(answer.value);
        SaveAnswerData(sheet, senderId, answer, parse, now);
      }
    }

    /** `chat.send_message` on the sender's open session: the exchange is added to its history. */
    method SendMessage(senderId: string, userMessage: string, answer: Option<string>)
      requires senderId in sessions
      modifies this
      ensures sessions == old(sessions)[senderId := Exchanged(old(sessions)[senderId], userMessage, answer)]
    {
      sessions := sessions[senderId := Exchanged(sessions[senderId], userMessage, answer)];
    }

    /** A sender without a session gets one, primed with the opening exchange. */
    method OpenSession(senderId: string)
      modifies this
      ensures sessions == old(sessions)[senderId := Opened(old(sessions), senderId, primer)]
    {
      if senderId !in sessions {
        sessions := sessions[senderId := primer];
      }
    }
  }

  /** The payload part of `ask_gemini`: a data segment that parses is saved for the sender. */
  method SaveAnswerData(sheet: Table?, senderId: string, answer: Option<string>,
                        parse: string -> Option<Record>, now: string)
    requires answer.Some?
    modifies sheet
    ensures sheet != null ==> sheet.rows == AfterAnswer(old(sheet.rows), senderId, answer, parse, now)
  {
    var dataMatch := ExtractData(answer.value);
    if dataMatch.Some? {
      var leadData := parse(dataMatch.value);
      if leadData.Some? {
        SaveToSheetAsync(sheet, senderId, leadData.value, now);
      }
    }
  }
}
