/** Reading an uploaded conversation log: the rows after the CSV header become
    dialogue requests for the analysis server. Rows arrive already split into
    columns; turning a timestamp text into a time is the `parse` input. */
module Upload {
  import opened Domain
  import opened Text
  import opened Ordering

  /** One CSV record: its columns, in order. */
  type Row = seq<string>

  /** One utterance sent to the analysis server. */
  datatype DialogueRequest = DialogueRequest(dollId: string, text: string, utteredAt: int)

  const EmptyFileMessage := "파일이 없거나 비어있습니다."
  const DateFormatMessage := "날짜 포맷은 YYYY-MM-DD HH:MM:SS이어야 합니다."
  const NoSeniorMessage := "인형에 할당된 시니어가 없음."

  function DollMissingMessage(dollId: string): string {
    "인형 " + dollId + "가 없음."
  }

  /** A record with all three of doll id, text and time non-empty after trimming. */
  predicate Filled(c: Row) {
    |c| >= 3 && Trim(c[0]) != [] && Trim(c[1]) != [] && Trim(c[2]) != []
  }

  /** The request a filled record becomes, given its parsed time. */
  function RequestOf(c: Row, utteredAt: int): DialogueRequest
    requires |c| >= 3
  {
    DialogueRequest(Trim(c[0]), Trim(c[1]), utteredAt)
  }

  /** `request` is what record `c` becomes: its time parses, and the request
      holds its trimmed doll id and text and that time. */
  predicate Becomes(c: Row, request: DialogueRequest, parse: string -> Option<int>) {
    |c| >= 3 && parse(Trim(c[2])).Some? && request == RequestOf(c, parse(Trim(c[2])).value)
  }

  /** Pairing a record and its request in front of matching sequences keeps them matching. */
  lemma AllBecomeCons(c: Row, cs: seq<Row>, request: DialogueRequest, requests: seq<DialogueRequest>,
                      parse: string -> Option<int>)
    requires Becomes(c, request, parse) && |cs| == |requests|
    requires forall k :: 0 <= k < |cs| ==> Becomes(cs[k], requests[k], parse)
    ensures forall k :: 0 <= k < |cs| + 1 ==> Becomes(([c] + cs)[k], ([request] + requests)[k], parse)
  {
  }

  /** The loop over the records after the header. A record with fewer than
      three columns stops it with an index error; a record with an empty field
      is skipped; the first filled record's doll must exist (`dolls`) and have a
      senior (`withSenior`); a time that does not parse stops it. */
  function Scan(rows: seq<Row>, firstCheck: bool, dolls: set<string>, withSenior: set<string>,
                parse: string -> Option<int>): Result<seq<DialogueRequest>>
  {
    if rows == [] then Ok([])
    else
      var c := rows[0];
      if |c| < 3 then Fail(Unhandled("ArrayIndexOutOfBoundsException"))
      else if !Filled(c) then Scan(rows[1..], firstCheck, dolls, withSenior, parse)
      else if firstCheck && Trim(c[0]) !in dolls then Fail(EntityNotFound(DollMissingMessage(Trim(c[0]))))
      else if firstCheck && Trim(c[0]) !in withSenior then Fail(EntityNotFound(NoSeniorMessage))
      else if parse(Trim(c[2])).None? then Fail(InvalidFile(DateFormatMessage))
      else
        match Scan(rows[1..], false, dolls, withSenior, parse)
        case Fail(e) => Fail(e)
        case Ok(rest) => Ok([RequestOf(c, parse(Trim(c[2])).value)] + rest)
  }

  /** A successful scan saw no record with fewer than three columns. */
  lemma {:induction false} ScanOkNoShortRecord(rows: seq<Row>, firstCheck: bool, dolls: set<string>,
                                               withSenior: set<string>, parse: string -> Option<int>)
    requires Scan(rows, firstCheck, dolls, withSenior, parse).Ok?
    ensures forall i :: 0 <= i < |rows| ==> |rows[i]| >= 3
  {
    if rows != [] {
      var next := if Filled(rows[0]) then false else firstCheck;
      ScanOkNoShortRecord(rows[1..], next, dolls, withSenior, parse);
      assert forall i :: 1 <= i < |rows| ==> rows[i] == rows[1..][i - 1];
    }
  }

  /** A successful scan turned exactly the filled records, in input order,
      into requests carrying their trimmed fields and parsed times. */
  lemma {:induction false} ScanOk(rows: seq<Row>, firstCheck: bool, dolls: set<string>, withSenior: set<string>,
                                  parse: string -> Option<int>)
    requires Scan(rows, firstCheck, dolls, withSenior, parse).Ok?
    ensures |Scan(rows, firstCheck, dolls, withSenior, parse).value| == |Filter(rows, Filled)|
    ensures forall k :: 0 <= k < |Filter(rows, Filled)| ==>
              Becomes(Filter(rows, Filled)[k], Scan(rows, firstCheck, dolls, withSenior, parse).value[k], parse)
  {
    if rows != [] {
      var c := rows[0];
      var fs := Filter(rows, Filled);
      var out := Scan(rows, firstCheck, dolls, withSenior, parse);
      assert rows == [c] + rows[1..];
      if Filled(c) {
        var t := parse(Trim(c[2]));
        var after := Scan(rows[1..], false, dolls, withSenior, parse);
        assert t.Some? && after.Ok?;
        ScanOk(rows[1..], false, dolls, withSenior, parse);
        var tail := Filter(rows[1..], Filled);
        assert fs == [c] + tail;
        assert out.value == [RequestOf(c, t.value)] + after.value;
        AllBecomeCons(c, tail, out.value[0], after.value, parse);
      } else {
        assert out == Scan(rows[1..], firstCheck, dolls, withSenior, parse);
        ScanOk(rows[1..], firstCheck, dolls, withSenior, parse);
        assert fs == Filter(rows[1..], Filled);
      }
    }
  }

  /** When the first filled record is checked, a successful scan means its doll
      exists and has a senior. */
  lemma {:induction false} ScanChecksFirstDoll(rows: seq<Row>, dolls: set<string>, withSenior: set<string>,
                                               parse: string -> Option<int>)
    requires Scan(rows, true, dolls, withSenior, parse).Ok? && Filter(rows, Filled) != []
    ensures |Filter(rows, Filled)[0]| >= 3
    ensures Trim(Filter(rows, Filled)[0][0]) in dolls && Trim(Filter(rows, Filled)[0][0]) in withSenior
  {
    if !Filled(rows[0]) {
      ScanChecksFirstDoll(rows[1..], dolls, withSenior, parse);
    }
  }

  /** A short record reached before any failure makes the whole upload fail,
      even when it is an empty line between good records. */
  lemma ShortRecordFails(good: Row, dolls: set<string>, withSenior: set<string>, parse: string -> Option<int>)
    requires Filled(good) && Trim(good[0]) in dolls && Trim(good[0]) in withSenior && parse(Trim(good[2])).Some?
    ensures Scan([good, [""], good], true, dolls, withSenior, parse).Fail?
  {
    var rows := [good, [""], good];
    assert rows[1..] == [[""], good];
    assert Scan(rows[1..], false, dolls, withSenior, parse) == Fail(Unhandled("ArrayIndexOutOfBoundsException"));
  }
}
