/**
 Output records, the per-category sequence counters that number them, and the
 file path each record is written to (`NewDatabase/<split>/<category>/<n>.jpg`).
 */
module Labeler {
  import opened Geometry

  /** The two classes of the data set. */
  datatype Category = Empty | Robot

  /** The two data set partitions; every record written goes to `Training`. */
  datatype Split = Training | Validation

  /**
   One point of the augmentation parameter space: a zoom scale in tenths
   (10 is 1.0), a rotation angle in degrees and a square Gaussian kernel size.
   */
  datatype Augmentation = Augmentation(scaleTenths: int, angle: int, blurSize: int)

  /**
   What the pixels of a record were cut from. The pixels themselves are left
   to the image library; the model keeps the geometry that selects them.
   A `Tile` is a crop of a decoded image; a `Variant` is the centred square
   crop, then the zoom window inside that square, resized to 64 x 64, rotated
   and blurred as `params` says.
   */
  datatype Payload =
    | Tile(roi: Rect)
    | Variant(square: Rect, zoom: Rect, params: Augmentation)

  datatype OutputRecord = OutputRecord(category: Category, split: Split, number: nat, payload: Payload)

  /** The global counters: `emptyImageNr`, `robotImageNr` and `robotImageInputCount`. */
  datatype Counters = Counters(emptyImageNr: nat, robotImageNr: nat, robotImageInputCount: nat)

  const Start := Counters(0, 0, 0)

  /** The next number the counter of `cat` hands out. */
  function NextNumber(c: Counters, cat: Category): nat {
    match cat
    case Empty => c.emptyImageNr
    case Robot => c.robotImageNr
  }

  /**
   Writes out `payloads` as records of category `cat`, each taking the current
   counter value `first + k` and leaving the next one for the following record
   (`emptyImageNr++` / `robotImageNr++`).
   */
  function Label(cat: Category, first: nat, payloads: seq<Payload>): (r: seq<OutputRecord>)
    ensures |r| == |payloads|
    ensures forall k :: 0 <= k < |r| ==> r[k] == OutputRecord(cat, Training, first + k, payloads[k])
    decreases |payloads|
  {
    if |payloads| == 0 then []
    else [OutputRecord(cat, Training, first, payloads[0])] + Label(cat, first + 1, payloads[1..])
  }

  /** The records of category `cat`, in the order they were written. */
  function Of(records: seq<OutputRecord>, cat: Category): (r: seq<OutputRecord>)
    ensures |r| <= |records|
    ensures forall k :: 0 <= k < |r| ==> r[k].category == cat && r[k] in records
  {
    if |records| == 0 then []
    else (if records[0].category == cat then [records[0]] else []) + Of(records[1..], cat)
  }

  lemma {:induction false} OfConcat(a: seq<OutputRecord>, b: seq<OutputRecord>, cat: Category)
    ensures Of(a + b, cat) == Of(a, cat) + Of(b, cat)
  {
    if |a| > 0 {
      OfConcat(a[1..], b, cat);
      assert (a + b)[1..] == a[1..] + b;
    } else {
      assert a + b == b;
    }
  }

  /** Records of one category only: filtering for it keeps them all, filtering for the other keeps none. */
  lemma {:induction false} OfLabel(cat: Category, other: Category, first: nat, payloads: seq<Payload>)
    requires other != cat
    ensures Of(Label(cat, first, payloads), cat) == Label(cat, first, payloads)
    ensures Of(Label(cat, first, payloads), other) == []
    decreases |payloads|
  {
    if |payloads| > 0 {
      OfLabel(cat, other, first + 1, payloads[1..]);
    }
  }

  /**
   The records of `cat` carry the numbers `first, first + 1, ...` in the order
   written: strictly increasing, gap-free, none reused.
   */
  ghost predicate NumberedFrom(records: seq<OutputRecord>, cat: Category, first: nat) {
    forall k :: 0 <= k < |Of(records, cat)| ==> Of(records, cat)[k].number == first + k
  }

  lemma NumberedConcat(a: seq<OutputRecord>, b: seq<OutputRecord>, cat: Category, first: nat)
    requires NumberedFrom(a, cat, first)
    requires NumberedFrom(b, cat, first + |Of(a, cat)|)
    ensures NumberedFrom(a + b, cat, first)
  {
    OfConcat(a, b, cat);
  }

  // ----- Output file names -----

  /** Root of the generated data set (`outputDatabasePath`). */
  const OutputDatabasePath: string := "NewDatabase/"

  function SplitFolder(s: Split): string {
    match s
    case Training => "Training/"
    case Validation => "Validation/"
  }

  function CategoryFolder(c: Category): string {
    match c
    case Empty => "empty/"
    case Robot => "robot/"
  }

  predicate IsDigit(c: char) {
    '0' <= c <= '9'
  }

  function DigitChar(d: nat): (c: char)
    requires d < 10
    ensures IsDigit(c)
  {
    ('0' as int + d) as char
  }

  function DigitValue(c: char): (d: nat)
    requires IsDigit(c)
    ensures d < 10 && DigitChar(d) == c
  {
    c as int - '0' as int
  }

  /** How `operator<<` prints a non-negative `int`: decimal digits, no leading zero. */
  function Decimal(n: nat): (s: string)
    ensures 0 < |s|
    ensures forall i :: 0 <= i < |s| ==> IsDigit(s[i])
    ensures s[0] == '0' ==> n == 0 && |s| == 1
    decreases n
  {
    if n < 10 then [DigitChar(n)] else Decimal(n / 10) + [DigitChar(n % 10)]
  }

  /** Reads a string of decimal digits back as a number. */
  function ParseDecimal(s: string): nat
    requires forall i :: 0 <= i < |s| ==> IsDigit(s[i])
  {
    if |s| == 0 then 0 else ParseDecimal(s[..|s| - 1]) * 10 + DigitValue(s[|s| - 1])
  }

  lemma {:induction false} DecimalRoundTrip(n: nat)
    ensures ParseDecimal(Decimal(n)) == n
    decreases n
  {
    var s := Decimal(n);
    if n >= 10 {
      DecimalRoundTrip(n / 10);
      assert s[..|s| - 1] == Decimal(n / 10);
      assert DigitValue(s[|s| - 1]) == n % 10;
    } else {
      assert s[..0] == [];
    }
  }

  lemma DecimalInjective(m: nat, n: nat)
    requires Decimal(m) == Decimal(n)
    ensures m == n
  {
    DecimalRoundTrip(m);
    DecimalRoundTrip(n);
  }

  /** `<outputDatabasePath><outputFolder><category>/<number>.jpg`. */
  function OutputPath(r: OutputRecord): (p: string)
    ensures r.split == Training ==> "NewDatabase/Training/" <= p
    ensures |p| > 4 && p[|p| - 4..] == ".jpg"
  {
    OutputDatabasePath + SplitFolder(r.split) + CategoryFolder(r.category) + Decimal(r.number) + ".jpg"
  }

  /** Two records share an output file exactly when split, category and number agree. */
  lemma OutputPathInjective(a: OutputRecord, b: OutputRecord)
    ensures OutputPath(a) == OutputPath(b) <==>
      (a.split == b.split && a.category == b.category && a.number == b.number)
  {
    if OutputPath(a) == OutputPath(b) {
      var p, q := OutputPath(a), OutputPath(b);
      var root := |OutputDatabasePath|;
      assert p[root] == SplitFolder(a.split)[0];
      assert q[root] == SplitFolder(b.split)[0];
      assert a.split == b.split;
      var cat := root + |SplitFolder(a.split)|;
      assert p[cat] == CategoryFolder(a.category)[0];
      assert q[cat] == CategoryFolder(b.category)[0];
      assert a.category == b.category;
      var head := OutputDatabasePath + SplitFolder(a.split) + CategoryFolder(a.category);
      var da, db := Decimal(a.number), Decimal(b.number);
      assert p == head + (da + ".jpg");
      assert q == head + (db + ".jpg");
      assert da + ".jpg" == p[|head|..] == q[|head|..] == db + ".jpg";
      assert da == (da + ".jpg")[..|da + ".jpg"| - 4];
      assert db == (db + ".jpg")[..|db + ".jpg"| - 4];
      DecimalInjective(a.number, b.number);
    }
  }
}
