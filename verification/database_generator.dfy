/**
 The per-image steps of the generator (`readAndRegionSplit`, `readAndPixelSplit`,
 `readAndPostProcess`) and a whole run over the three input collections, with
 the global counters threaded from step to step.
 */
module DatabaseGenerator {
  import opened Wrappers
  import opened Geometry
  import opened Labeler
  import opened RegionTiler
  import opened SlidingWindowTiler
  import opened RobotAugmentation

  /** A decoded image; only its size matters to the generator's geometry. */
  datatype Image = Image(width: nat, height: nat)

  /**
   What `imread` gave for one candidate path: `None` for a file that is not an
   image (including the directory's `.` and `..` entries).
   */
  type Decoding = Option<Image>

  /** `!image.empty()`: the file decoded to an image with at least one pixel. */
  predicate Usable(d: Decoding) {
    d.Some? && d.value.width > 0 && d.value.height > 0
  }

  /** The counters after a step, and the records it wrote, in order. */
  datatype Step = Step(counters: Counters, records: seq<OutputRecord>)

  /** Counter values after `n` more records of category `cat`. */
  function Advance(c: Counters, cat: Category, n: nat): Counters {
    match cat
    case Empty => c.(emptyImageNr := c.emptyImageNr + n)
    case Robot => c.(robotImageNr := c.robotImageNr + n)
  }

  /** Writes `payloads` under category `cat`, numbering them from that category's counter. */
  function Emit(c: Counters, cat: Category, payloads: seq<Payload>): Step {
    Step(Advance(c, cat, |payloads|), Label(cat, NextNumber(c, cat), payloads))
  }

  function Tiles(rois: seq<Rect>): seq<Payload> {
    seq(|rois|, k requires 0 <= k < |rois| => Tile(rois[k]))
  }

  /**
   `readAndRegionSplit`: nothing happens for an undecodable file; otherwise
   one `empty` record per region tile, each a 64 x 64 crop inside the image.
   */
  function ReadAndRegionSplit(c: Counters, d: Decoding): (s: Step)
    ensures !Usable(d) ==> s == Step(c, [])
    ensures Usable(d) ==> |s.records| == |RegionTiles(d.value.width, d.value.height)|
    ensures Usable(d) ==> forall k :: 0 <= k < |s.records| ==>
      s.records[k].payload == Tile(RegionTiles(d.value.width, d.value.height)[k])
    ensures s.counters == c.(emptyImageNr := c.emptyImageNr + |s.records|)
    ensures forall k :: 0 <= k < |s.records| ==>
      && s.records[k].category == Empty && s.records[k].split == Training
      && s.records[k].number == c.emptyImageNr + k
      && s.records[k].payload.Tile?
      && s.records[k].payload.roi.width == OutputWidth && s.records[k].payload.roi.height == OutputHeight
      && Inside(s.records[k].payload.roi, d.value.width, d.value.height)
  {
    if !Usable(d) then Step(c, [])
    else
      var tiles := RegionTiles(d.value.width, d.value.height);
      assert forall k :: 0 <= k < |tiles| ==>
        tiles[k].width == OutputWidth && tiles[k].height == OutputHeight && Inside(tiles[k], d.value.width, d.value.height)
      by {
        forall k | 0 <= k < |tiles|
          ensures tiles[k].width == OutputWidth && tiles[k].height == OutputHeight
          ensures Inside(tiles[k], d.value.width, d.value.height)
        {
          RegionTileShape(d.value.width, d.value.height, k);
        }
      }
      Emit(c, Empty, Tiles(tiles))
  }

  /**
   `readAndPixelSplit`: nothing happens for an undecodable file; otherwise one
   `empty` record per sliding window, numbered on from the same counter.
   */
  function ReadAndPixelSplit(c: Counters, d: Decoding): (s: Step)
    ensures !Usable(d) ==> s == Step(c, [])
    ensures Usable(d) ==> |s.records| == |SlidingWindows(d.value.width, d.value.height)|
    ensures Usable(d) ==> forall k :: 0 <= k < |s.records| ==>
      s.records[k].payload == Tile(SlidingWindows(d.value.width, d.value.height)[k])
    ensures s.counters == c.(emptyImageNr := c.emptyImageNr + |s.records|)
    ensures forall k :: 0 <= k < |s.records| ==>
      && s.records[k].category == Empty && s.records[k].split == Training
      && s.records[k].number == c.emptyImageNr + k
      && s.records[k].payload.Tile?
      && s.records[k].payload.roi.width == OutputWidth && s.records[k].payload.roi.height == OutputHeight
      && s.records[k].payload.roi.x % StepsSize == 0 && s.records[k].payload.roi.y % StepsSize == 0
      && Inside(s.records[k].payload.roi, d.value.width, d.value.height)
  {
    if !Usable(d) then Step(c, [])
    else
      var windows := SlidingWindows(d.value.width, d.value.height);
      assert forall k :: 0 <= k < |windows| ==>
        && windows[k].width == OutputWidth && windows[k].height == OutputHeight
        && windows[k].x % StepsSize == 0 && windows[k].y % StepsSize == 0
        && Inside(windows[k], d.value.width, d.value.height)
      by {
        forall k | 0 <= k < |windows|
          ensures windows[k].width == OutputWidth && windows[k].height == OutputHeight
          ensures windows[k].x % StepsSize == 0 && windows[k].y % StepsSize == 0
          ensures Inside(windows[k], d.value.width, d.value.height)
        {
          SlidingWindowShape(d.value.width, d.value.height, k);
        }
      }
      Emit(c, Empty, Tiles(windows))
  }

  /**
   `readAndPostProcess`: nothing happens for an undecodable file; otherwise
   exactly 18 `robot` records, one per parameter combination, after which the
   input counter goes up by one.
   */
  function ReadAndPostProcess(c: Counters, d: Decoding): (s: Step)
    ensures !Usable(d) ==> s == Step(c, [])
    ensures Usable(d) ==> |s.records| == VariantsPerImage
    ensures Usable(d) ==> forall k :: 0 <= k < |s.records| ==>
      s.records[k].payload == Variants(d.value.width, d.value.height)[k]
    ensures Usable(d) ==> s.counters == Counters(
      c.emptyImageNr, c.robotImageNr + VariantsPerImage, c.robotImageInputCount + 1)
    ensures forall k :: 0 <= k < |s.records| ==>
      && s.records[k].category == Robot && s.records[k].split == Training
      && s.records[k].number == c.robotImageNr + k
      && s.records[k].payload.Variant?
      && s.records[k].payload.params.blurSize > 0 && s.records[k].payload.params.blurSize % 2 == 1
  {
    if !Usable(d) then Step(c, [])
    else
      var variants := Variants(d.value.width, d.value.height);
      assert forall k :: 0 <= k < |variants| ==>
        variants[k].Variant? && variants[k].params.blurSize > 0 && variants[k].params.blurSize % 2 == 1
      by {
        forall k | 0 <= k < |variants|
          ensures variants[k].Variant? && variants[k].params.blurSize > 0 && variants[k].params.blurSize % 2 == 1
        {
          VariantWellFormed(d.value.width, d.value.height, k);
        }
      }
      var s := Emit(c, Robot, variants);
      Step(s.counters.(robotImageInputCount := c.robotImageInputCount + 1), s.records)
  }

  /** One candidate path of one of the three input directories. */
  datatype Job =
    | SplitByRegion(d: Decoding)
    | SplitByPixel(d: Decoding)
    | PostProcess(d: Decoding)

  function RunJob(c: Counters, j: Job): Step {
    match j
    case SplitByRegion(d) => ReadAndRegionSplit(c, d)
    case SplitByPixel(d) => ReadAndPixelSplit(c, d)
    case PostProcess(d) => ReadAndPostProcess(c, d)
  }

  /** 1 for a robot image that decodes, which is what `robotImageInputCount` counts. */
  function RobotInput(j: Job): nat {
    if j.PostProcess? && Usable(j.d) then 1 else 0
  }

  /** How many of the jobs are robot images that decode. */
  function RobotInputs(jobs: seq<Job>): nat {
    if |jobs| == 0 then 0 else RobotInput(jobs[0]) + RobotInputs(jobs[1..])
  }

  /** The counters and records after running `jobs` in order from counters `c`. */
  function RunJobs(c: Counters, jobs: seq<Job>): Step
    decreases |jobs|
  {
    if |jobs| == 0 then Step(c, [])
    else
      var first := RunJob(c, jobs[0]);
      var rest := RunJobs(first.counters, jobs[1..]);
      Step(rest.counters, first.records + rest.records)
  }

  /**
   Running jobs in order numbers each category's records on from its counter
   without gaps, leaves each counter at its start plus the records written,
   counts the robot images that decoded, and writes everything to `Training`.
   */
  lemma {:induction false} RunJobsNumbering(c: Counters, jobs: seq<Job>)
    ensures var s := RunJobs(c, jobs);
      && NumberedFrom(s.records, Empty, c.emptyImageNr)
      && NumberedFrom(s.records, Robot, c.robotImageNr)
      && s.counters.emptyImageNr == c.emptyImageNr + |Of(s.records, Empty)|
      && s.counters.robotImageNr == c.robotImageNr + |Of(s.records, Robot)|
      && s.counters.robotImageInputCount == c.robotImageInputCount + RobotInputs(jobs)
      && (forall k :: 0 <= k < |s.records| ==> s.records[k].split == Training)
    decreases |jobs|
  {
    if |jobs| > 0 {
      var first := RunJob(c, jobs[0]);
      var rest := RunJobs(first.counters, jobs[1..]);
      JobNumbering(c, jobs[0]);
      RunJobsNumbering(first.counters, jobs[1..]);
      NumberedConcat(first.records, rest.records, Empty, c.emptyImageNr);
      NumberedConcat(first.records, rest.records, Robot, c.robotImageNr);
      OfConcat(first.records, rest.records, Empty);
      OfConcat(first.records, rest.records, Robot);
    }
  }

  /** A single step numbers its records like a run does. */
  lemma JobNumbering(c: Counters, j: Job)
    ensures var s := RunJob(c, j);
      && NumberedFrom(s.records, Empty, c.emptyImageNr)
      && NumberedFrom(s.records, Robot, c.robotImageNr)
      && s.counters.emptyImageNr == c.emptyImageNr + |Of(s.records, Empty)|
      && s.counters.robotImageNr == c.robotImageNr + |Of(s.records, Robot)|
      && s.counters.robotImageInputCount == c.robotImageInputCount + RobotInput(j)
  {
    var s := RunJob(c, j);
    if !Usable(j.d) {
      assert s.records == [];
    } else if j.PostProcess? {
      OfLabel(Robot, Empty, c.robotImageNr, Variants(j.d.value.width, j.d.value.height));
    } else if j.SplitByRegion? {
      OfLabel(Empty, Robot, c.emptyImageNr, Tiles(RegionTiles(j.d.value.width, j.d.value.height)));
    } else {
      OfLabel(Empty, Robot, c.emptyImageNr, Tiles(SlidingWindows(j.d.value.width, j.d.value.height)));
    }
  }

  /** `main`: the region directory, then the pixel directory, then the robot directory. */
  function Jobs(regionImages: seq<Decoding>, pixelImages: seq<Decoding>, robotImages: seq<Decoding>): (jobs: seq<Job>)
    ensures |jobs| == |regionImages| + |pixelImages| + |robotImages|
  {
    seq(|regionImages|, i requires 0 <= i < |regionImages| => SplitByRegion(regionImages[i]))
    + seq(|pixelImages|, i requires 0 <= i < |pixelImages| => SplitByPixel(pixelImages[i]))
    + seq(|robotImages|, i requires 0 <= i < |robotImages| => PostProcess(robotImages[i]))
  }

  /** A whole run, starting with every counter at 0. */
  function Generate(regionImages: seq<Decoding>, pixelImages: seq<Decoding>, robotImages: seq<Decoding>): Step {
    RunJobs(Start, Jobs(regionImages, pixelImages, robotImages))
  }

  lemma OfContains(records: seq<OutputRecord>, cat: Category, i: nat)
    requires i < |records| && records[i].category == cat
    ensures records[i] in Of(records, cat)
    decreases i
  {
    if i > 0 {
      OfContains(records[1..], cat, i - 1);
      assert records[i] == records[1..][i - 1];
    }
  }

  /** In a gap-free numbering, a record of `cat` written later carries a larger number. */
  lemma {:induction false} NumberedIncreasing(records: seq<OutputRecord>, cat: Category, first: nat, i: nat, j: nat)
    requires NumberedFrom(records, cat, first)
    requires i < j < |records|
    requires records[i].category == cat && records[j].category == cat
    ensures first <= records[i].number < records[j].number
    decreases i
  {
    var rest := records[1..];
    var head := if records[0].category == cat then [records[0]] else [];
    assert Of(records, cat) == head + Of(rest, cat);
    var first' := first + |head|;
    assert NumberedFrom(rest, cat, first') by {
      forall k | 0 <= k < |Of(rest, cat)|
        ensures Of(rest, cat)[k].number == first' + k
      {
        assert Of(rest, cat)[k] == Of(records, cat)[|head| + k];
      }
    }
    assert records[j] == rest[j - 1];
    OfContains(rest, cat, j - 1);
    var q :| 0 <= q < |Of(rest, cat)| && Of(rest, cat)[q] == records[j];
    if i == 0 {
      assert Of(records, cat)[0] == records[0];
    } else {
      assert records[i] == rest[i - 1];
      NumberedIncreasing(rest, cat, first', i - 1, j - 1);
    }
  }

  /**
   Over a whole run each category is numbered 0, 1, 2, ... in writing order,
   the final counters equal the numbers of records written, and the input
   counter equals the number of robot images that decoded.
   */
  lemma GenerateNumbering(regionImages: seq<Decoding>, pixelImages: seq<Decoding>, robotImages: seq<Decoding>)
    ensures var s := Generate(regionImages, pixelImages, robotImages);
      && (forall k :: 0 <= k < |Of(s.records, Empty)| ==> Of(s.records, Empty)[k].number == k)
      && (forall k :: 0 <= k < |Of(s.records, Robot)| ==> Of(s.records, Robot)[k].number == k)
      && s.counters == Counters(|Of(s.records, Empty)|, |Of(s.records, Robot)|,
                                RobotInputs(Jobs(regionImages, pixelImages, robotImages)))
  {
    RunJobsNumbering(Start, Jobs(regionImages, pixelImages, robotImages));
  }

  /** No two records of a run are written to the same file, and every file is under `NewDatabase/Training/`. */
  lemma GenerateDistinctPaths(regionImages: seq<Decoding>, pixelImages: seq<Decoding>, robotImages: seq<Decoding>, i: nat, j: nat)
    ensures var s := Generate(regionImages, pixelImages, robotImages);
      i < |s.records| ==> "NewDatabase/Training/" <= OutputPath(s.records[i])
    ensures var s := Generate(regionImages, pixelImages, robotImages);
      i < j < |s.records| ==> OutputPath(s.records[i]) != OutputPath(s.records[j])
  {
    var s := Generate(regionImages, pixelImages, robotImages);
    RunJobsNumbering(Start, Jobs(regionImages, pixelImages, robotImages));
    if i < j < |s.records| {
      var a, b := s.records[i], s.records[j];
      OutputPathInjective(a, b);
      if a.category == b.category {
        NumberedIncreasing(s.records, a.category, 0, i, j);
      }
    }
  }

  lemma RunCons(c: Counters, j: Job, rest: seq<Job>)
    ensures RunJobs(c, [j] + rest).counters == RunJobs(RunJob(c, j).counters, rest).counters
    ensures RobotInputs([j] + rest) == RobotInput(j) + RobotInputs(rest)
  {
    assert ([j] + rest)[1..] == rest;
  }

  lemma RunThree(c: Counters, j0: Job, j1: Job, j2: Job)
    ensures RunJobs(c, [j0, j1, j2]).counters
         == RunJob(RunJob(RunJob(c, j0).counters, j1).counters, j2).counters
    ensures RobotInputs([j0, j1, j2]) == RobotInput(j0) + RobotInput(j1) + RobotInput(j2)
  {
    var c1 := RunJob(c, j0).counters;
    var c2 := RunJob(c1, j1).counters;
    RunCons(c, j0, [j1, j2]);
    assert [j0, j1, j2] == [j0] + [j1, j2];
    RunCons(c1, j1, [j2]);
    assert [j1, j2] == [j1] + [j2];
    RunCons(c2, j2, []);
    assert [j2] == [j2] + [];
  }

  lemma JobsOfSingletons(r: Decoding, p: Decoding, q: Decoding)
    ensures Jobs([r], [p], [q]) == [SplitByRegion(r), SplitByPixel(p), PostProcess(q)]
  {
  }

  lemma RegionStepExample(c: Counters)
    ensures RunJob(c, SplitByRegion(Some(Image(200, 140)))).counters == c.(emptyImageNr := c.emptyImageNr + 2)
  {
    RegionExample();
  }

  lemma PixelStepExample(c: Counters)
    ensures RunJob(c, SplitByPixel(Some(Image(150, 90)))).counters == c.(emptyImageNr := c.emptyImageNr + 16)
  {
    SlidingWindowExample();
  }

  lemma RobotStepExample(c: Counters, width: nat, height: nat)
    requires width > 0 && height > 0
    ensures RunJob(c, PostProcess(Some(Image(width, height)))).counters
         == Counters(c.emptyImageNr, c.robotImageNr + 18, c.robotImageInputCount + 1)
  {
  }

  lemma ScenarioCounters(robotWidth: nat, robotHeight: nat)
    requires robotWidth > 0 && robotHeight > 0
    ensures Generate([Some(Image(200, 140))], [Some(Image(150, 90))], [Some(Image(robotWidth, robotHeight))]).counters
         == Counters(18, 18, 1)
  {
    var r, p, q := Some(Image(200, 140)), Some(Image(150, 90)), Some(Image(robotWidth, robotHeight));
    var j0, j1, j2 := SplitByRegion(r), SplitByPixel(p), PostProcess(q);
    JobsOfSingletons(r, p, q);
    RegionStepExample(Start);
    PixelStepExample(Counters(2, 0, 0));
    RobotStepExample(Counters(18, 0, 0), robotWidth, robotHeight);
    RunThree(Start, j0, j1, j2);
  }

  /**
   One region source of 200 x 140, one sliding-window source of 150 x 90 and
   one robot source give 2 + 16 = 18 `empty` records and 18 `robot` records.
   */
  lemma FullRunScenario(robotWidth: nat, robotHeight: nat)
    requires robotWidth > 0 && robotHeight > 0
    ensures var s := Generate([Some(Image(200, 140))], [Some(Image(150, 90))], [Some(Image(robotWidth, robotHeight))]);
      && |Of(s.records, Empty)| == 18
      && |Of(s.records, Robot)| == 18
      && s.counters == Counters(18, 18, 1)
  {
    ScenarioCounters(robotWidth, robotHeight);
    GenerateNumbering([Some(Image(200, 140))], [Some(Image(150, 90))], [Some(Image(robotWidth, robotHeight))]);
  }
}
