/** Reading the open-data catalogue of degree programmes from a CSV
    resource: unibo_integ/resource.go. The CSV tokeniser itself is not
    modelled; a `CsvStream` is what it yields. */
module IntegResource {
  import opened Wrappers
  import opened Text
  import opened Decimal
  import opened Seqs
  import opened Catalogue

  /** What successive `reader.Read()` calls yield: the records in order,
      then either the end of the input (`failure == None`, Go's `io.EOF`)
      or a read error. */
  datatype CsvStream = CsvStream(records: seq<seq<string>>, failure: Option<string>)

  /** The text `ParseInt(row[i], 10, 32)` accepts a programme code or a
      length in years from. */
  predicate Fits32(i: int) {
    -Pow2(31) <= i < Pow2(31)
  }

  /** One data row as a programme. The checks run in the order of the
      source: the code in column 2, the length in years in column 9, the
      international flag in column 10, then the text columns up to 14. A
      row too short for a column the conversion reads panics. */
  function DecodeRow(row: seq<string>): (r: Result<Course>)
    ensures r.Ok? <==> |row| >= 15 && ParseInt(row[2], 32).Ok? && ParseInt(row[9], 32).Ok? && ParseBool(row[10]).Ok?
    ensures r.Ok? ==> Fits32(r.value.codice) && Fits32(r.value.durataAnni)
    ensures r.Panic? <==>
      || |row| <= 2
      || (ParseInt(row[2], 32).Ok? && |row| <= 9)
      || (ParseInt(row[2], 32).Ok? && ParseInt(row[9], 32).Ok? && |row| <= 10)
      || (ParseInt(row[2], 32).Ok? && ParseInt(row[9], 32).Ok? && ParseBool(row[10]).Ok? && |row| <= 14)
  {
    if |row| <= 2 then Panic("index out of range")
    else
      var code := ParseInt(row[2], 32);
      if !code.Ok? then Err(code.msg)
      else if |row| <= 9 then Panic("index out of range")
      else
        var years := ParseInt(row[9], 32);
        if !years.Ok? then Err(years.msg)
        else if |row| <= 10 then Panic("index out of range")
        else
          var international := ParseBool(row[10]);
          if !international.Ok? then Err(international.msg)
          else if |row| <= 14 then Panic("index out of range")
          else
            Ok(Course(
              annoAccademico := row[0],
              immatricolabile := row[1],
              codice := code.value,
              descrizione := row[3],
              url := row[4],
              campus := row[5],
              ambiti := row[7],
              tipologia := row[8],
              durataAnni := years.value,
              internazionale := international.value,
              internazionaleTitolo := row[11],
              internazionaleLingua := row[12],
              lingue := row[13],
              accesso := row[14],
              sedeDidattica := row[6]))
  }

  /** `strconv.FormatBool`. */
  function BoolText(b: bool): string {
    if b then "true" else "false"
  }

  /** The row of a programme in the column order the reader expects. */
  function EncodeRow(c: Course): (row: seq<string>)
    ensures |row| == 15
  {
    [c.annoAccademico, c.immatricolabile, Itoa(c.codice), c.descrizione, c.url, c.campus, c.sedeDidattica,
     c.ambiti, c.tipologia, Itoa(c.durataAnni), BoolText(c.internazionale), c.internazionaleTitolo,
     c.internazionaleLingua, c.lingue, c.accesso]
  }

  /** Every programme whose code and length fit 32 bits is read back from
      its row. */
  lemma DecodeEncodeRow(c: Course)
    requires Fits32(c.codice) && Fits32(c.durataAnni)
    ensures DecodeRow(EncodeRow(c)) == Ok(c)
  {
    var row := EncodeRow(c);
    assert row[2] == Itoa(c.codice) && row[9] == Itoa(c.durataAnni) && row[10] == BoolText(c.internazionale);
    ParseText32(c.codice);
    ParseText32(c.durataAnni);
    ParseBoolText(c.internazionale);
    DecodeFullRow(row, c.codice, c.durataAnni, c.internazionale);
  }

  /** A number of 32 bits is read back from its decimal text. */
  lemma ParseText32(i: int)
    requires Fits32(i)
    ensures ParseInt(Itoa(i), 32) == Ok(i)
  {
    ParseItoa(i, 32);
  }

  /** A flag is read back from its text. */
  lemma ParseBoolText(b: bool)
    ensures ParseBool(BoolText(b)) == Ok(b)
  {
  }

  /** A row of 15 columns whose numeric and flag columns parse is the
      programme those columns and the text columns describe. */
  lemma DecodeFullRow(row: seq<string>, code: int, years: int, international: bool)
    requires |row| == 15
    requires ParseInt(row[2], 32) == Ok(code) && ParseInt(row[9], 32) == Ok(years) && ParseBool(row[10]) == Ok(international)
    ensures DecodeRow(row) == Ok(Course(row[0], row[1], code, row[3], row[4], row[5], row[7], row[8], years,
                                        international, row[11], row[12], row[13], row[14], row[6]))
  {
  }

  /** The data rows in order, stopping at the first that fails. */
  function DecodeRows(rows: seq<seq<string>>): (r: Result<seq<Course>>)
    ensures r.Ok? <==> forall i :: 0 <= i < |rows| ==> DecodeRow(rows[i]).Ok?
    ensures r.Ok? ==> |r.value| == |rows| && forall i :: 0 <= i < |rows| ==> r.value[i] == DecodeRow(rows[i]).value
  {
    MapResult(rows, DecodeRow)
  }

  /** A file whose rows fail, fails with the first bad row's error: the
      rows before it were all read. */
  lemma FirstBadRowFails(rows: seq<seq<string>>)
    requires !DecodeRows(rows).Ok?
    ensures exists i ::
      && 0 <= i < |rows| && DecodeRow(rows[i]).Failed() && DecodeRows(rows) == DecodeRow(rows[i]).PropagateFailure()
      && forall j :: 0 <= j < i ==> DecodeRow(rows[j]).Ok?
  {
    MapResultFirstFailure(rows, DecodeRow);
  }

  /** `downloadCSV`'s result: the header must be readable (an empty input
      fails with `EOF`), then the data rows are converted in order until
      one fails or the reader fails; the end of the input ends the list. */
  function DecodeCsv(stream: CsvStream): (r: Result<seq<Course>>)
    ensures r.Ok? <==> stream.records != [] && stream.failure.None? && DecodeRows(stream.records[1..]).Ok?
    ensures r.Ok? ==> r.value == DecodeRows(stream.records[1..]).value
    ensures stream.records == [] ==> r == Err(if stream.failure.Some? then stream.failure.value else "EOF")
  {
    if stream.records == [] then Err(if stream.failure.Some? then stream.failure.value else "EOF")
    else
      match DecodeRows(stream.records[1..])
      case Ok(cs) => if stream.failure.Some? then Err(stream.failure.value) else Ok(cs)
      case Err(m) => Err(m)
      case Panic(m) => Panic(m)
  }

  /** The rows of a list of programmes. */
  function EncodeRows(cs: seq<Course>): (rows: seq<seq<string>>)
    ensures |rows| == |cs| && forall i :: 0 <= i < |cs| ==> rows[i] == EncodeRow(cs[i])
  {
    if cs == [] then [] else [EncodeRow(cs[0])] + EncodeRows(cs[1..])
  }

  /** The rows of programmes whose numbers fit 32 bits are read back as
      those programmes. */
  lemma DecodeEncodeRows(cs: seq<Course>)
    requires forall i :: 0 <= i < |cs| ==> Fits32(cs[i].codice) && Fits32(cs[i].durataAnni)
    ensures DecodeRows(EncodeRows(cs)) == Ok(cs)
  {
    var rows := EncodeRows(cs);
    forall i | 0 <= i < |cs| ensures DecodeRow(rows[i]) == Ok(cs[i]) {
      DecodeEncodeRow(cs[i]);
    }
    MapResultAllOk(rows, cs, DecodeRow);
  }

  /** A well-formed file, a header followed by the rows of some
      programmes, is read back as exactly those programmes. */
  lemma DecodeEncodeCsv(header: seq<string>, cs: seq<Course>)
    requires forall i :: 0 <= i < |cs| ==> Fits32(cs[i].codice) && Fits32(cs[i].durataAnni)
    ensures DecodeCsv(CsvStream([header] + EncodeRows(cs), None)) == Ok(cs)
  {
    DecodeEncodeRows(cs);
    assert ([header] + EncodeRows(cs))[1..] == EncodeRows(cs);
  }

  /** `downloadCSV`: skips the header, then reads and converts rows until
      the end of the input. */
  method DownloadCsv(stream: CsvStream) returns (r: Result<seq<Course>>)
    ensures r == DecodeCsv(stream)
  {
    if stream.records == [] {
      return Err(if stream.failure.Some? then stream.failure.value else "EOF");
    }
    var rows := stream.records[1..];
    var courses: seq<Course> := [];
    for i := 0 to |rows|
      invariant MapResult(rows[..i], DecodeRow) == Ok(courses)
    {
      MapResultStep(rows, i, DecodeRow, courses);
      var c := DecodeRow(rows[i]);
      if !c.Ok? {
        return c.PropagateFailure();
      }
      courses := courses + [c.value];
    }
    assert rows[..|rows|] == rows;
    if stream.failure.Some? {
      return Err(stream.failure.value);
    }
    r := Ok(courses);
  }

  /** How the GET of a resource ended: an error, or a body to read and
      then close, the close possibly failing. */
  datatype Download = GetFailed(msg: string) | Fetched(body: CsvStream, closeError: Option<string>)

  /** `DownloadResource`: only a resource whose URL ends in `.csv` is read;
      any other body is closed and then rejected. */
  function DownloadResource(url: string, d: Download): (r: Result<seq<Course>>)
    ensures r.Ok? <==> d.Fetched? && HasSuffix(url, ".csv") && DecodeCsv(d.body).Ok? && d.closeError.None?
    ensures r.Ok? ==> r.value == DecodeCsv(d.body).value
    ensures d.Fetched? && !HasSuffix(url, ".csv") && d.closeError.None? ==> r == Err("resource is not a csv file")
    ensures r.Panic? ==> d.Fetched? && HasSuffix(url, ".csv") && DecodeCsv(d.body).Panic?
  {
    match d
    case GetFailed(m) => Err(m)
    case Fetched(body, closeError) =>
      var csv := HasSuffix(url, ".csv");
      if csv && !DecodeCsv(body).Ok? then DecodeCsv(body)
      else if closeError.Some? then Err(closeError.value)
      else if !csv then Err("resource is not a csv file")
      else DecodeCsv(body)
  }
}
