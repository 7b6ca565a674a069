/**
 * The detection dashboard (frontend/src/components/Dashboard.js): turning
 * the CSV text or the six input fields into the feature array, the
 * component state the detect and refresh handlers leave behind, the CSV
 * export text and the demo values of "Quick Fill". Server replies are
 * inputs: the data of a successful call, or the message of a failed one.
 */
module DashboardView {
  import opened Wrappers
  import opened Text
  import opened Seqs
  import opened Js
  import Preprocessing

  const CsvCountError := "Please enter exactly 6 numbers in CSV: bytes_in, bytes_out, packets, duration, src_port, dest_port"
  const FieldsError := "All six fields must be valid numbers (no blanks)."
  const DetectFailed := "Detection failed"
  const ListFailed := "Failed to load detections"
  const DemoSrcIp := "192.168.1.10"
  const DemoDestIp := "8.8.8.8"

  /** The component's own copy of the feature order. */
  const FeatureOrder: seq<string> := ["bytes_in", "bytes_out", "packets", "duration", "src_port", "dest_port"]

  /** It is the order the backend builds vectors in. */
  lemma SameFeatureOrder()
    ensures FeatureOrder == Preprocessing.FeatureOrder
  {
  }

  // ------------------------------------------------------ feature array

  /** `Number(piece.trim())`. */
  function PieceNumber(piece: string): Number {
    StringToNumber(JsTrim(piece))
  }

  /** `Number(piece.trim())` for each comma-separated piece of the CSV text. */
  function PieceNumbers(text: string): seq<Number> {
    var parts := Split(text, ',');
    seq(|parts|, i requires 0 <= i < |parts| => PieceNumber(parts[i]))
  }

  /**
   * `parseCsv`: the pieces' numbers in order, with the NaN ones dropped;
   * every other piece, a blank one (which is 0) included, is kept, as
   * many times as it occurs.
   */
  function ParseCsv(text: string): (nums: seq<Number>)
    ensures forall n | n in nums :: !n.NaN?
    ensures IsSubsequence(nums, PieceNumbers(text))
    ensures forall i | 0 <= i < |PieceNumbers(text)| && !PieceNumbers(text)[i].NaN? :: PieceNumbers(text)[i] in nums
    ensures forall n: Number | !n.NaN? :: multiset(nums)[n] == multiset(PieceNumbers(text))[n]
  {
    Numbers(PieceNumbers(text))
  }

  /** The values of `all` that are not NaN, in order, each of them kept as often as it occurs. */
  function Numbers(all: seq<Number>): (nums: seq<Number>)
    ensures forall n | n in nums :: !n.NaN?
    ensures IsSubsequence(nums, all)
    ensures forall i | 0 <= i < |all| && !all[i].NaN? :: all[i] in nums
    ensures forall n: Number | !n.NaN? :: multiset(nums)[n] == multiset(all)[n]
  {
    FilterKeeps(all, IsNumber);
    FilterCounts(all, IsNumber);
    Filter(all, IsNumber)
  }

  /** `!Number.isNaN(n)`. */
  predicate IsNumber(n: Number) { !n.NaN? }

  /** A blank piece counts as 0 and is kept. */
  lemma BlankPieceKept(text: string, i: nat)
    requires i < |Split(text, ',')| && Blank(Split(text, ',')[i], IsJsSpace)
    ensures Finite(0.0) in ParseCsv(text)
  {
    var piece := Split(text, ',')[i];
    assert JsTrim(piece) == [];
    assert PieceNumber(piece) == Finite(0.0);
    assert PieceNumbers(text)[i] == Finite(0.0);
  }

  /** `fields[k]`: `undefined` for a key the object lacks. */
  function FieldValue(fields: map<string, JsValue>, k: string): JsValue {
    if k in fields then fields[k] else Undefined
  }

  /** `Number(String(fields[k]).trim())`. */
  function FieldNumber(fields: map<string, JsValue>, k: string): Number {
    StringToNumber(JsTrim(ToString(FieldValue(fields, k))))
  }

  /** `FEATURE_ORDER.map(k => Number(String(fields[k]).trim()))`. */
  function FieldNumbers(fields: map<string, JsValue>): (nums: seq<Number>)
    ensures |nums| == 6 && forall i | 0 <= i < 6 :: nums[i] == FieldNumber(fields, FeatureOrder[i])
  {
    seq(6, i requires 0 <= i < 6 => FieldNumber(fields, FeatureOrder[i]))
  }

  predicate NoNaN(nums: seq<Number>) {
    forall i | 0 <= i < |nums| :: !nums[i].NaN?
  }

  /**
   * `buildFeatureArray`: in CSV mode the parsed numbers, an error unless
   * exactly six survive; otherwise the six fields in feature order, an
   * error if any of them is NaN.
   */
  function BuildFeatureArray(useCsv: bool, csv: string, fields: map<string, JsValue>): (r: Result<seq<Number>, string>)
    ensures r.Ok? ==> |r.value| == 6 && NoNaN(r.value)
    ensures useCsv ==> (r.Ok? <==> |ParseCsv(csv)| == 6)
    ensures useCsv && r.Ok? ==> r.value == ParseCsv(csv)
    ensures useCsv && r.Err? ==> r.error == CsvCountError
    ensures !useCsv ==> (r.Ok? <==> NoNaN(FieldNumbers(fields)))
    ensures !useCsv && r.Ok? ==> r.value == FieldNumbers(fields)
    ensures !useCsv && r.Err? ==> r.error == FieldsError
    ensures r.Err? ==> r.error != ""
  {
    if useCsv then
      var arr := ParseCsv(csv);
      assert NoNaN(arr) by {
        forall i | 0 <= i < |arr| ensures !arr[i].NaN? { assert arr[i] in arr; }
      }
      if |arr| != 6 then Err(CsvCountError) else Ok(arr)
    else
      var arr := FieldNumbers(fields);
      if !NoNaN(arr) then Err(FieldsError) else Ok(arr)
  }

  const ZeroFeatures: seq<Number> := [Finite(0.0), Finite(0.0), Finite(0.0), Finite(0.0), Finite(0.0), Finite(0.0)]

  /** Blank fields are not rejected: each one counts as 0. */
  lemma BlankFieldsAccepted(fields: map<string, JsValue>, csv: string)
    requires forall i | 0 <= i < 6 :: FieldValue(fields, FeatureOrder[i]) == Str("")
    ensures BuildFeatureArray(false, csv, fields) == Ok(ZeroFeatures)
  {
    var nums := FieldNumbers(fields);
    forall i | 0 <= i < 6 ensures nums[i] == Finite(0.0) {
      BlankFieldIsZero(fields, FeatureOrder[i]);
    }
    assert NoNaN(nums);
    assert BuildFeatureArray(false, csv, fields) == Ok(nums);
    assert nums == ZeroFeatures;
  }

  lemma BlankFieldIsZero(fields: map<string, JsValue>, k: string)
    requires FieldValue(fields, k) == Str("")
    ensures FieldNumber(fields, k) == Finite(0.0)
  {
    assert JsTrim("") == "";
  }

  /** A piece holding the decimal text of `n` reads as `n`. */
  lemma DecimalPiece(n: nat)
    ensures PieceNumber(NatToString(n)) == Finite(n as real)
  {
    StringToNumberTrimmed(NatToString(n));
    IntegerRoundTrip(n);
  }

  /** Pieces without a comma are split back apart before they are read. */
  lemma JoinedPieces(texts: seq<string>, nums: seq<Number>)
    requires texts != [] && forall t | t in texts :: ',' !in t
    requires |nums| == |texts| && forall i | 0 <= i < |texts| :: PieceNumber(texts[i]) == nums[i]
    ensures PieceNumbers(Join(texts, ",")) == nums
  {
    SplitJoin(texts, ',');
  }

  /** The decimal texts of some numbers, and the numbers as JavaScript values. */
  function DecimalTexts(ns: seq<nat>): (texts: seq<string>)
    ensures |texts| == |ns| && forall i | 0 <= i < |ns| :: texts[i] == NatToString(ns[i])
  {
    seq(|ns|, i requires 0 <= i < |ns| => NatToString(ns[i]))
  }

  function Values(ns: seq<nat>): (nums: seq<Number>)
    ensures |nums| == |ns| && forall i | 0 <= i < |ns| :: nums[i] == Finite(ns[i] as real)
  {
    seq(|ns|, i requires 0 <= i < |ns| => Finite(ns[i] as real))
  }

  lemma DecimalTextsLackComma(ns: seq<nat>)
    ensures forall t | t in DecimalTexts(ns) :: ',' !in t
  {
    forall i | 0 <= i < |ns| ensures ',' !in DecimalTexts(ns)[i] {
      assert AllDigits(NatToString(ns[i]));
    }
  }

  lemma DecimalPieces(ns: seq<nat>)
    requires ns != []
    ensures PieceNumbers(Join(DecimalTexts(ns), ",")) == Values(ns)
  {
    DecimalTextsLackComma(ns);
    forall i | 0 <= i < |ns| ensures PieceNumber(DecimalTexts(ns)[i]) == Values(ns)[i] {
      DecimalPiece(ns[i]);
    }
    JoinedPieces(DecimalTexts(ns), Values(ns));
  }

  /** CSV text made of decimal numbers reads back as those numbers. */
  lemma CsvOfNumbers(ns: seq<nat>, text: string)
    requires ns != [] && text == Join(DecimalTexts(ns), ",")
    ensures ParseCsv(text) == Values(ns)
  {
    DecimalPieces(ns);
    FilterAll(Values(ns), IsNumber);
  }

  /**
   * A piece that is not a number is dropped before the count is checked:
   * decimal numbers with one stray piece anywhere among them parse as the
   * numbers alone.
   */
  lemma StrayPieceDropped(ns: seq<nat>, k: nat, stray: string, text: string)
    requires k <= |ns| && ',' !in stray && PieceNumber(stray) == NaN
    requires text == Join(DecimalTexts(ns)[..k] + [stray] + DecimalTexts(ns)[k..], ",")
    ensures ParseCsv(text) == Values(ns)
  {
    StrayPieces(ns, k, stray, text);
    ValuesAreNumbers(ns);
    NaNDropped(Values(ns), k);
  }

  lemma ValuesAreNumbers(ns: seq<nat>)
    ensures NoNaN(Values(ns))
  {
  }

  lemma StrayPieces(ns: seq<nat>, k: nat, stray: string, text: string)
    requires k <= |ns| && ',' !in stray && PieceNumber(stray) == NaN
    requires text == Join(DecimalTexts(ns)[..k] + [stray] + DecimalTexts(ns)[k..], ",")
    ensures PieceNumbers(text) == Values(ns)[..k] + [NaN] + Values(ns)[k..]
  {
    var texts := DecimalTexts(ns)[..k] + [stray] + DecimalTexts(ns)[k..];
    var want := Values(ns)[..k] + [NaN] + Values(ns)[k..];
    StrayTextsLackComma(ns, k, stray);
    StrayTextsRead(ns, k, stray);
    JoinedPieces(texts, want);
  }

  lemma StrayTextsRead(ns: seq<nat>, k: nat, stray: string)
    requires k <= |ns| && PieceNumber(stray) == NaN
    ensures var texts := DecimalTexts(ns)[..k] + [stray] + DecimalTexts(ns)[k..];
            var want := Values(ns)[..k] + [NaN] + Values(ns)[k..];
            |texts| == |want| && forall i | 0 <= i < |texts| :: PieceNumber(texts[i]) == want[i]
  {
    forall j | 0 <= j < |ns| ensures PieceNumber(DecimalTexts(ns)[j]) == Values(ns)[j] {
      DecimalAt(ns, j);
    }
    InsertedReads(DecimalTexts(ns), Values(ns), k, stray, NaN);
  }

  /** Putting a piece that reads as `x` among pieces read in order puts `x` at the same place. */
  lemma InsertedReads(texts: seq<string>, nums: seq<Number>, k: nat, piece: string, x: Number)
    requires |texts| == |nums| && k <= |texts| && PieceNumber(piece) == x
    requires forall j | 0 <= j < |texts| :: PieceNumber(texts[j]) == nums[j]
    ensures var t := texts[..k] + [piece] + texts[k..];
            var w := nums[..k] + [x] + nums[k..];
            |t| == |w| && forall i | 0 <= i < |t| :: PieceNumber(t[i]) == w[i]
  {
    var t := texts[..k] + [piece] + texts[k..];
    var w := nums[..k] + [x] + nums[k..];
    forall i | 0 <= i < |t| ensures PieceNumber(t[i]) == w[i] {
      InsertedAt(texts, k, piece, i);
      InsertedAt(nums, k, x, i);
    }
  }

  /** Each decimal text reads back as its value. */
  lemma DecimalAt(ns: seq<nat>, j: nat)
    requires j < |ns|
    ensures PieceNumber(DecimalTexts(ns)[j]) == Values(ns)[j]
  {
    DecimalPiece(ns[j]);
  }

  lemma StrayTextsLackComma(ns: seq<nat>, k: nat, stray: string)
    requires k <= |ns| && ',' !in stray
    ensures forall t | t in DecimalTexts(ns)[..k] + [stray] + DecimalTexts(ns)[k..] :: ',' !in t
  {
    var texts := DecimalTexts(ns)[..k] + [stray] + DecimalTexts(ns)[k..];
    DecimalTextsLackComma(ns);
    forall i | 0 <= i < |texts| ensures ',' !in texts[i] {
      if i < k {
        assert texts[i] == DecimalTexts(ns)[i];
      } else if k < i {
        assert texts[i] == DecimalTexts(ns)[i - 1];
      }
    }
  }

  /** Filtering out NaN removes exactly the one NaN put among numbers. */
  lemma NaNDropped(vs: seq<Number>, k: nat)
    requires k <= |vs| && NoNaN(vs)
    ensures Filter(vs[..k] + [NaN] + vs[k..], IsNumber) == vs
  {
    FilterDropsOne(vs[..k], NaN, vs[k..], IsNumber);
    assert vs[..k] + vs[k..] == vs;
  }

  /** "1,2,x,3,4,5,6" is accepted as the six numbers 1 to 6. */
  lemma StrayLetterAccepted(fields: map<string, JsValue>)
    ensures BuildFeatureArray(true, "1,2,x,3,4,5,6", fields) == Ok(Values([1, 2, 3, 4, 5, 6]))
  {
    var ns: seq<nat> := [1, 2, 3, 4, 5, 6];
    StrayText();
    StringToNumberTrimmed("x");
    LetterIsNaN();
    StrayPieceDropped(ns, 2, "x", "1,2,x,3,4,5,6");
  }

  lemma StrayText()
    ensures var texts := DecimalTexts([1, 2, 3, 4, 5, 6]);
            "1,2,x,3,4,5,6" == Join(texts[..2] + ["x"] + texts[2..], ",")
  {
    var texts := DecimalTexts([1, 2, 3, 4, 5, 6]);
    assert texts == ["1", "2", "3", "4", "5", "6"] by {
      assert NatToString(1) == "1" && NatToString(2) == "2" && NatToString(3) == "3";
      assert NatToString(4) == "4" && NatToString(5) == "5" && NatToString(6) == "6";
    }
    assert texts[..2] + ["x"] + texts[2..] == ["1", "2", "x", "3", "4", "5", "6"];
    StrayJoined();
  }

  lemma StrayJoined()
    ensures Join(["1", "2", "x", "3", "4", "5", "6"], ",") == "1,2,x,3,4,5,6"
  {
    assert Join(["1", "2", "x", "3", "4", "5", "6"], ",") == "1" + "," + Join(["2", "x", "3", "4", "5", "6"], ",");
    JoinSix("2", "x", "3", "4", "5", "6", ",");
  }

  // ------------------------------------------------------------ export

  const HeaderCells: seq<JsValue> := [Str("id"), Str("src_ip"), Str("dest_ip"), Str("is_malicious"), Str("score"), Str("created_at")]

  /** The six cells of a detection's line; a missing or empty `dest_ip` becomes "". */
  function RowCells(d: JsValue): seq<JsValue> {
    [Get(d, "id"), Get(d, "src_ip"), Or(Get(d, "dest_ip"), Str("")), Get(d, "is_malicious"), Get(d, "score"), Get(d, "created_at")]
  }

  /** The text `Array.prototype.join` writes for one element: "" for `null` and `undefined`. */
  function CellText(v: JsValue): string {
    if v.Undefined? || v.Null? then "" else ToString(v)
  }

  function CellTexts(cells: seq<JsValue>): (texts: seq<string>)
    ensures |texts| == |cells| && forall i | 0 <= i < |cells| :: texts[i] == CellText(cells[i])
  {
    seq(|cells|, i requires 0 <= i < |cells| => CellText(cells[i]))
  }

  /** `cells.join(",")`. */
  function Line(cells: seq<JsValue>): string {
    ToString(Array(cells))
  }

  function RowLines(ds: seq<JsValue>): (lines: seq<string>)
    ensures |lines| == |ds| && forall i | 0 <= i < |ds| :: lines[i] == Line(RowCells(ds[i]))
  {
    seq(|ds|, i requires 0 <= i < |ds| => Line(RowCells(ds[i])))
  }

  /**
   * `exportCsv`: nothing for an empty list (the "No data" alert);
   * otherwise the header line and one line per detection, joined by
   * newlines.
   */
  function ExportCsv(ds: seq<JsValue>): (text: Option<string>)
    ensures text.None? <==> ds == []
  {
    if ds == [] then None else Some(Join([Line(HeaderCells)] + RowLines(ds), "\n"))
  }

  /** The header's cell texts are the column names. */
  lemma HeaderTexts()
    ensures CellTexts(HeaderCells) == ["id", "src_ip", "dest_ip", "is_malicious", "score", "created_at"]
  {
  }

  /** A line is its cells' texts joined by commas. */
  lemma LineCells(cells: seq<JsValue>)
    ensures Line(cells) == Join(CellTexts(cells), ",")
  {
    var elems := seq(|cells|, i requires 0 <= i < |cells| =>
                   if cells[i].Undefined? || cells[i].Null? then "" else ToString(cells[i]));
    assert Line(cells) == Join(elems, ",");
    assert elems == CellTexts(cells);
  }

  /**
   * When no cell text holds a line break, the export splits back into the
   * header and exactly one line per detection, in list order.
   */
  lemma ExportLines(ds: seq<JsValue>)
    requires ds != []
    requires forall d, c | d in ds && c in CellTexts(RowCells(d)) :: '\n' !in c
    ensures Split(ExportCsv(ds).value, '\n') == [Line(HeaderCells)] + RowLines(ds)
  {
    var lines := [Line(HeaderCells)] + RowLines(ds);
    HeaderAvoids();
    RowsAvoid(ds, '\n');
    assert forall l | l in lines :: '\n' !in l;
    SplitJoin(lines, '\n');
  }

  /** The header line holds no line break. */
  lemma HeaderAvoids()
    ensures '\n' !in Line(HeaderCells)
  {
    HeaderTexts();
    LineAvoids(HeaderCells, '\n');
  }

  lemma RowsAvoid(ds: seq<JsValue>, c: char)
    requires c != ',' && forall d, t | d in ds && t in CellTexts(RowCells(d)) :: c !in t
    ensures forall i | 0 <= i < |ds| :: c !in RowLines(ds)[i]
  {
    forall i | 0 <= i < |ds| ensures c !in RowLines(ds)[i] {
      assert ds[i] in ds;
      LineAvoids(RowCells(ds[i]), c);
    }
  }

  /** A line holds a character other than the comma only if one of its cells does. */
  lemma LineAvoids(cells: seq<JsValue>, c: char)
    requires c != ',' && forall t | t in CellTexts(cells) :: c !in t
    ensures c !in Line(cells)
  {
    LineCells(cells);
    JoinAvoids(CellTexts(cells), ",", c);
  }

  /**
   * When no cell text holds a comma, a detection's line splits back into
   * its six cells.
   */
  lemma RowFields(d: JsValue)
    requires forall c | c in CellTexts(RowCells(d)) :: ',' !in c
    ensures Split(Line(RowCells(d)), ',') == CellTexts(RowCells(d))
    ensures |Split(Line(RowCells(d)), ',')| == 6
  {
    CellsSplit(RowCells(d));
  }

  /** The third cell of a detection whose `dest_ip` is falsy is written as "". */
  lemma MissingDestCell(d: JsValue)
    requires !Truthy(Get(d, "dest_ip"))
    ensures CellTexts(RowCells(d))[2] == ""
  {
    assert RowCells(d)[2] == Str("");
  }

  /** A line whose cell texts hold no comma splits back into those texts. */
  lemma CellsSplit(cells: seq<JsValue>)
    requires cells != [] && forall c | c in CellTexts(cells) :: ',' !in c
    ensures Split(Line(cells), ',') == CellTexts(cells)
  {
    LineCells(cells);
    SplitJoin(CellTexts(cells), ',');
  }

  /** Joining texts free of a character with a separator free of it gives a text free of it. */
  lemma {:induction false} JoinAvoids(parts: seq<string>, sep: string, c: char)
    requires c !in sep && forall p | p in parts :: c !in p
    ensures c !in Join(parts, sep)
  {
    if |parts| > 1 {
      assert parts[0] in parts;
      JoinAvoids(parts[1..], sep, c);
    }
  }

  // ------------------------------------------------------- Quick Fill

  const QuickFillCsv := "1200,800,40,3,54321,443"
  const QuickFillValues: seq<nat> := [1200, 800, 40, 3, 54321, 443]

  function QuickFillFields(): map<string, JsValue> {
    map["bytes_in" := Num(Finite(1200.0)), "bytes_out" := Num(Finite(800.0)), "packets" := Num(Finite(40.0)),
        "duration" := Num(Finite(3.0)), "src_port" := Num(Finite(54321.0)), "dest_port" := Num(Finite(443.0))]
  }

  function QuickFillNumbers(): seq<Number> {
    [Finite(1200.0), Finite(800.0), Finite(40.0), Finite(3.0), Finite(54321.0), Finite(443.0)]
  }

  /** The demo CSV text is the decimal text of the demo values. */
  lemma QuickFillText()
    ensures Join(DecimalTexts(QuickFillValues), ",") == QuickFillCsv
  {
    QuickFillTexts();
    QuickFillJoined();
  }

  lemma QuickFillTexts()
    ensures DecimalTexts(QuickFillValues) == ["1200", "800", "40", "3", "54321", "443"]
  {
    CountTexts();
    PortTexts();
  }

  lemma CountTexts()
    ensures NatToString(1200) == "1200" && NatToString(800) == "800" && NatToString(40) == "40" && NatToString(3) == "3"
  {
    assert NatToString(12) == NatToString(1) + [DigitChar(2)];
    assert NatToString(120) == NatToString(12) + [DigitChar(0)];
    assert NatToString(1200) == NatToString(120) + [DigitChar(0)];
    assert NatToString(80) == NatToString(8) + [DigitChar(0)];
    assert NatToString(800) == NatToString(80) + [DigitChar(0)];
    assert NatToString(40) == NatToString(4) + [DigitChar(0)];
  }

  lemma PortTexts()
    ensures NatToString(54321) == "54321" && NatToString(443) == "443"
  {
    assert NatToString(54) == NatToString(5) + [DigitChar(4)];
    assert NatToString(543) == NatToString(54) + [DigitChar(3)];
    assert NatToString(5432) == NatToString(543) + [DigitChar(2)];
    assert NatToString(54321) == NatToString(5432) + [DigitChar(1)];
    assert NatToString(44) == NatToString(4) + [DigitChar(4)];
    assert NatToString(443) == NatToString(44) + [DigitChar(3)];
  }

  lemma QuickFillJoined()
    ensures Join(["1200", "800", "40", "3", "54321", "443"], ",") == QuickFillCsv
  {
    JoinSix("1200", "800", "40", "3", "54321", "443", ",");
  }

  /** Six parts joined are the parts with the separator between each two. */
  lemma JoinSix(a: string, b: string, c: string, d: string, e: string, f: string, sep: string)
    ensures Join([a, b, c, d, e, f], sep) == a + sep + (b + sep + (c + sep + (d + sep + (e + sep + f))))
  {
    assert Join([e, f], sep) == e + sep + f;
    assert Join([d, e, f], sep) == d + sep + Join([e, f], sep);
    assert Join([c, d, e, f], sep) == c + sep + Join([d, e, f], sep);
    assert Join([b, c, d, e, f], sep) == b + sep + Join([c, d, e, f], sep);
    assert Join([a, b, c, d, e, f], sep) == a + sep + Join([b, c, d, e, f], sep);
  }

  /** A field holding a whole number reads as that number. */
  lemma NumberField(fields: map<string, JsValue>, k: string, n: nat)
    requires FieldValue(fields, k) == Num(Finite(n as real))
    ensures FieldNumber(fields, k) == Finite(n as real)
  {
    IntegerToString(n);
    assert ToString(FieldValue(fields, k)) == NatToString(n);
    DecimalPiece(n);
  }

  lemma QuickFillFieldNumbers()
    ensures FieldNumbers(QuickFillFields()) == QuickFillNumbers()
  {
    QuickFillCounts();
    QuickFillPorts();
    SixNumbers(FieldNumbers(QuickFillFields()), QuickFillNumbers());
  }

  lemma SixNumbers(nums: seq<Number>, expected: seq<Number>)
    requires |nums| == 6 && expected == [nums[0], nums[1], nums[2], nums[3], nums[4], nums[5]]
    ensures nums == expected
  {
  }

  lemma FeatureKeys()
    ensures FeatureOrder[0] == "bytes_in" && FeatureOrder[1] == "bytes_out" && FeatureOrder[2] == "packets"
    ensures FeatureOrder[3] == "duration" && FeatureOrder[4] == "src_port" && FeatureOrder[5] == "dest_port"
  {
  }

  /** Each Quick Fill field holds its demo value: the six keys are told apart by first letter or length. */
  lemma QuickFillLookups()
    ensures FieldValue(QuickFillFields(), "bytes_in") == Num(Finite(1200.0))
    ensures FieldValue(QuickFillFields(), "bytes_out") == Num(Finite(800.0))
    ensures FieldValue(QuickFillFields(), "packets") == Num(Finite(40.0))
    ensures FieldValue(QuickFillFields(), "duration") == Num(Finite(3.0))
    ensures FieldValue(QuickFillFields(), "src_port") == Num(Finite(54321.0))
    ensures FieldValue(QuickFillFields(), "dest_port") == Num(Finite(443.0))
  {
    assert "bytes_in"[0] == 'b' && "bytes_out"[0] == 'b' && "packets"[0] == 'p';
    assert "duration"[0] == 'd' && "src_port"[0] == 's' && "dest_port"[0] == 'd';
    assert |"bytes_in"| == 8 && |"bytes_out"| == 9 && |"duration"| == 8 && |"dest_port"| == 9;
  }

  lemma QuickFillCounts()
    ensures var nums := FieldNumbers(QuickFillFields());
            nums[0] == Finite(1200.0) && nums[1] == Finite(800.0) && nums[2] == Finite(40.0)
  {
    var f := QuickFillFields();
    FeatureKeys();
    QuickFillLookups();
    NumberField(f, "bytes_in", 1200);
    NumberField(f, "bytes_out", 800);
    NumberField(f, "packets", 40);
  }

  lemma QuickFillPorts()
    ensures var nums := FieldNumbers(QuickFillFields());
            nums[3] == Finite(3.0) && nums[4] == Finite(54321.0) && nums[5] == Finite(443.0)
  {
    var f := QuickFillFields();
    FeatureKeys();
    QuickFillLookups();
    NumberField(f, "duration", 3);
    NumberField(f, "src_port", 54321);
    NumberField(f, "dest_port", 443);
  }

  /** After "Quick Fill" both input modes give the same six numbers. */
  lemma QuickFillModesAgree(csv: string, fields: map<string, JsValue>)
    ensures BuildFeatureArray(true, QuickFillCsv, fields) == Ok(QuickFillNumbers())
    ensures BuildFeatureArray(false, csv, QuickFillFields()) == Ok(QuickFillNumbers())
  {
    QuickFillCsvMode();
    QuickFillFieldsMode(csv);
  }

  lemma QuickFillCsvMode()
    ensures ParseCsv(QuickFillCsv) == QuickFillNumbers()
  {
    QuickFillParsed();
    QuickFillValuesAreNumbers();
  }

  lemma QuickFillFieldsMode(csv: string)
    ensures BuildFeatureArray(false, csv, QuickFillFields()) == Ok(QuickFillNumbers())
  {
    QuickFillNoNaN();
    QuickFillFieldNumbers();
  }

  lemma QuickFillNoNaN()
    ensures NoNaN(QuickFillNumbers())
  {
    var numbers := QuickFillNumbers();
    forall i | 0 <= i < |numbers| ensures !numbers[i].NaN? {
    }
  }

  lemma QuickFillParsed()
    ensures ParseCsv(QuickFillCsv) == Values(QuickFillValues)
  {
    QuickFillText();
    CsvOfNumbers(QuickFillValues, QuickFillCsv);
  }

  lemma QuickFillValuesAreNumbers()
    ensures Values(QuickFillValues) == QuickFillNumbers()
  {
  }

  // ------------------------------------------------------------ state

  /** `message || fallback` for an error message. */
  function OrElse(message: string, fallback: string): (shown: string)
    ensures shown == message || shown == fallback
    ensures shown != "" <== fallback != ""
  {
    if message != "" then message else fallback
  }

  /** What `handleDetect` posts to `/detect`. */
  datatype DetectPayload = DetectPayload(srcIp: string, destIp: string, features: seq<Number>,
                                         threshold: Number, blockTarget: string)

  /** The dashboard's React state. */
  class Dashboard {
    var fields: map<string, JsValue>
    var csv: string
    var useCsv: bool
    var threshold: Number
    var blockTarget: string
    var result: Option<JsValue>
    var detections: seq<JsValue>
    var loading: bool
    var listLoading: bool
    var errMsg: string

    /** The initial state: empty inputs, field mode, threshold 0.5, blocking the destination. */
    constructor ()
      ensures forall k | k in FeatureOrder :: FieldValue(fields, k) == Str("")
      ensures csv == "" && !useCsv && threshold == Finite(0.5) && blockTarget == "dest"
      ensures result == None && detections == [] && !loading && !listLoading && errMsg == ""
    {
      fields := map k | k in FeatureOrder :: Str("");
      csv, useCsv, threshold, blockTarget := "", false, Finite(0.5), "dest";
      result, detections, loading, listLoading, errMsg := None, [], false, false, "";
    }

    /**
     * `handleDetect`: clears the message and the result; when the feature
     * array cannot be built, shows why and sends nothing; otherwise posts
     * the fixed demo addresses with the array, the threshold and the block
     * target, and shows the reply or the failure. Loading ends either way.
     */
    method HandleDetect(reply: Result<JsValue, string>) returns (sent: Option<DetectPayload>)
      modifies this`result, this`errMsg, this`loading
      ensures !loading
      ensures var built := old(BuildFeatureArray(useCsv, csv, fields));
              && (built.Err? ==> sent == None && result == None && errMsg == built.error)
              && (built.Ok? ==> sent == Some(DetectPayload(DemoSrcIp, DemoDestIp, built.value, old(threshold), old(blockTarget))))
              && (built.Ok? && reply.Ok? ==> result == Some(reply.value) && errMsg == "")
              && (built.Ok? && reply.Err? ==> result == None && errMsg == OrElse(reply.error, DetectFailed))
    {
      // errMsg is cleared, loading set and the result dropped before the
      // request; only the settled state is observable here.
      var built := BuildFeatureArray(useCsv, csv, fields);
      var shown: Option<JsValue> := None;
      var message := "";
      if built.Err? {
        message := OrElse(built.error, DetectFailed);
        sent := None;
      } else {
        sent := Some(DetectPayload(DemoSrcIp, DemoDestIp, built.value, threshold, blockTarget));
        match reply {
          case Ok(data) =>
            shown := Some(data);
          case Err(why) =>
            message := OrElse(why, DetectFailed);
        }
      }
      result, errMsg, loading := shown, message, false;
    }

    /** `handleGetDetections`: the list is replaced only by a successful reply; a failure is shown instead. */
    method HandleGetDetections(reply: Result<seq<JsValue>, string>)
      modifies this`detections, this`errMsg, this`listLoading
      ensures !listLoading
      ensures reply.Ok? ==> detections == reply.value && errMsg == old(errMsg)
      ensures reply.Err? ==> detections == old(detections) &&
                             errMsg == OrElse(reply.error, ListFailed)
    {
      listLoading := true;
      match reply {
        case Ok(data) =>
          detections := data;
        case Err(message) =>
          errMsg := OrElse(message, ListFailed);
      }
      listLoading := false;
    }

    /** `quickFill`: the demo values in the fields and in the CSV text. */
    method QuickFill()
      modifies this`fields, this`csv
      ensures fields == QuickFillFields() && csv == QuickFillCsv
    {
      fields := QuickFillFields();
      csv := QuickFillCsv;
    }
  }
}
