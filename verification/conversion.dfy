/** The main loop of coco2rcnn.py without its file-system and JSON
    plumbing: annotations are grouped by image id, and each image, in the
    order of the `images` array, yields one annotation document with
    index-aligned `bboxes` and `keypoints`. */
module Conversion {
  import opened Wrappers
  import opened Transform
  import opened FileNames

  /** An entry of the input `images` array. */
  datatype Image = Image(id: int, fileName: string, width: int, height: int)

  /** An entry of the input `annotations` array; `bbox` and `keypoints` are
      kept as the raw lists the program unpacks. */
  datatype Annotation = Annotation(imageId: int, bbox: seq<int>, keypoints: seq<int>)

  /** The per-image output document `{bboxes, keypoints}`. */
  datatype ImageDoc = ImageDoc(bboxes: seq<CornerBox>, keypoints: seq<seq<Keypoint>>)

  /** One annotation file: its name in the annotations directory and its
      contents. */
  datatype OutputFile = OutputFile(name: string, doc: ImageDoc)

  /** The exceptions that stop the run: the lookup of an image id that has
      no annotations, and the unpacking of a box or keypoint list of the
      wrong length (with the annotation's index within its image). */
  datatype Failure =
    | MissingGroup(imageId: int)
    | BadBox(imageId: int, index: nat)
    | BadKeypoints(imageId: int, index: nat)

  /** The outcome of a run: the annotation files written, in order, and the
      failure that stopped the run early, if any. */
  datatype Run = Run(written: seq<OutputFile>, failure: Option<Failure>)

  /** The image dimensions as the transformer takes them. */
  function SizeOf(image: Image): Size
  {
    Size(image.width, image.height)
  }

  /** The annotations of one image, in source order. */
  function Filter(anns: seq<Annotation>, id: int): (r: seq<Annotation>)
    ensures |r| <= |anns|
    ensures forall k :: 0 <= k < |r| ==> r[k].imageId == id && r[k] in anns
    ensures forall k :: 0 <= k < |anns| && anns[k].imageId == id ==> anns[k] in r
    ensures |r| == 0 <==> !Mentions(anns, id)
    ensures forall x :: multiset(r)[x] == (if x.imageId == id then multiset(anns)[x] else 0)
    decreases |anns|
  {
    if |anns| == 0 then []
    else
      assert anns == anns[..|anns| - 1] + [anns[|anns| - 1]];
      var r := Filter(anns[..|anns| - 1], id);
      if anns[|anns| - 1].imageId == id then r + [anns[|anns| - 1]] else r
  }

  /** `Filter` on a list split into its front and its last record. */
  lemma FilterSnoc(init: seq<Annotation>, last: Annotation, id: int)
    ensures Filter(init + [last], id) ==
      Filter(init, id) + (if last.imageId == id then [last] else [])
  {
    var s := init + [last];
    assert s[..|s| - 1] == init && s[|s| - 1] == last;
  }

  /** Filtering distributes over concatenation: the group keeps the
      source order of its records. */
  lemma {:induction false} FilterAppend(a: seq<Annotation>, b: seq<Annotation>, id: int)
    ensures Filter(a + b, id) == Filter(a, id) + Filter(b, id)
    decreases |b|
  {
    if |b| == 0 {
      assert a + b == a;
    } else {
      var init, last := b[..|b| - 1], b[|b| - 1];
      assert b == init + [last];
      assert a + b == (a + init) + [last];
      FilterSnoc(a + init, last, id);
      FilterSnoc(init, last, id);
      FilterAppend(a, init, id);
    }
  }

  /** The group of a single record: the record itself when it carries the
      id, nothing otherwise. */
  lemma FilterSingle(x: Annotation, id: int)
    ensures Filter([x], id) == (if x.imageId == id then [x] else [])
  {
    assert [x][..0] == [];
  }

  /** `pydash.group_by(annotations, 'image_id')`: one pass over the list,
      appending each record to the group of its image id. */
  function GroupBy(anns: seq<Annotation>): (groups: map<int, seq<Annotation>>)
    ensures forall id :: id in groups ==> |groups[id]| > 0
    ensures forall k :: 0 <= k < |anns| ==> anns[k].imageId in groups
    decreases |anns|
  {
    if |anns| == 0 then map[]
    else
      var g := GroupBy(anns[..|anns| - 1]);
      var a := anns[|anns| - 1];
      g[a.imageId := (if a.imageId in g then g[a.imageId] else []) + [a]]
  }

  /** Some annotation carries the image id. */
  predicate Mentions(anns: seq<Annotation>, id: int)
  {
    exists k :: 0 <= k < |anns| && anns[k].imageId == id
  }

  /** `Mentions` over a list split into its front and its last element. */
  lemma MentionsSnoc(anns: seq<Annotation>, id: int)
    requires |anns| > 0
    ensures Mentions(anns, id) <==>
      Mentions(anns[..|anns| - 1], id) || anns[|anns| - 1].imageId == id
  {
    var init := anns[..|anns| - 1];
    if Mentions(init, id) {
      var k :| 0 <= k < |init| && init[k].imageId == id;
      assert anns[k] == init[k];
    }
    if Mentions(anns, id) {
      var k :| 0 <= k < |anns| && anns[k].imageId == id;
      if k < |anns| - 1 {
        assert init[k] == anns[k];
      }
    }
  }

  /** The grouping has a key exactly for the ids some annotation carries,
      and each group is the order-preserving filter of the annotations by
      that id. */
  lemma {:induction false} GroupByIsFilter(anns: seq<Annotation>, id: int)
    ensures id in GroupBy(anns) <==> Mentions(anns, id)
    ensures id in GroupBy(anns) ==> GroupBy(anns)[id] == Filter(anns, id)
    decreases |anns|
  {
    if |anns| > 0 {
      var init := anns[..|anns| - 1];
      var a := anns[|anns| - 1];
      GroupByIsFilter(init, id);
      MentionsSnoc(anns, id);
      if a.imageId == id {
        assert Filter(anns, id) == Filter(init, id) + [a];
        if id !in GroupBy(init) {
          assert Filter(init, id) == [];
        }
      } else {
        assert Filter(anns, id) == Filter(init, id);
      }
    }
  }

  /** An annotation whose lists unpack: four box entries and whole keypoint
      triples. */
  predicate WellFormed(a: Annotation)
  {
    |a.bbox| == 4 && |a.keypoints| % 3 == 0
  }

  /** The exception a malformed annotation raises: the box is unpacked
      first, so a bad box is reported even when the keypoints are bad too. */
  function AnnotationFailure(id: int, k: nat, a: Annotation): (f: Failure)
    requires !WellFormed(a)
    ensures f.BadBox? <==> |a.bbox| != 4
    ensures f.BadBox? || f.BadKeypoints?
    ensures f.imageId == id && f.index == k
  {
    if |a.bbox| != 4 then BadBox(id, k) else BadKeypoints(id, k)
  }

  /** The first malformed annotation of a group is at index `k`. */
  predicate FirstMalformed(group: seq<Annotation>, k: int)
  {
    && 0 <= k < |group|
    && !WellFormed(group[k])
    && forall j :: 0 <= j < k ==> WellFormed(group[j])
  }

  /** The converted box of a well-formed annotation. */
  function BoxOf(a: Annotation, size: Size): CornerBox
    requires |a.bbox| == 4
  {
    XywhToXyxy(UnpackBox(a.bbox).value, size)
  }

  /** The converted keypoints of a well-formed annotation. */
  function KeypointsOf(a: Annotation, size: Size): seq<Keypoint>
    requires |a.keypoints| % 3 == 0
  {
    GetKeypoint(a.keypoints, size).value
  }

  /** The inner loop: every annotation of one image, in order, appends its
      converted box and its converted keypoints to the buffer; the first
      malformed annotation aborts. */
  function Assemble(group: seq<Annotation>, size: Size, id: int): (r: Result<ImageDoc, Failure>)
    ensures r.Ok? <==> (forall k :: 0 <= k < |group| ==> WellFormed(group[k]))
    ensures r.Ok? ==> |r.value.bboxes| == |group| && |r.value.keypoints| == |group|
    ensures r.Ok? ==> forall k :: 0 <= k < |group| ==>
      && r.value.bboxes[k] == BoxOf(group[k], size)
      && r.value.keypoints[k] == KeypointsOf(group[k], size)
    ensures r.Err? ==> (exists k :: FirstMalformed(group, k) && r.error == AnnotationFailure(id, k, group[k]))
    decreases |group|
  {
    if |group| == 0 then Ok(ImageDoc([], []))
    else
      var n := |group| - 1;
      var a := group[n];
      assert forall k :: 0 <= k < n ==> group[..n][k] == group[k];
      match Assemble(group[..n], size, id)
      case Err(e) => Err(e)
      case Ok(doc) =>
        if !WellFormed(a) then
          assert FirstMalformed(group, n);
          Err(AnnotationFailure(id, n, a))
        else
          Ok(ImageDoc(doc.bboxes + [BoxOf(a, size)], doc.keypoints + [KeypointsOf(a, size)]))
  }

  /** The body of the image loop: look up the image's group (a missing id
      raises), assemble its document, and name it after the file's stem. */
  function ProcessImage(image: Image, groups: map<int, seq<Annotation>>): (r: Result<OutputFile, Failure>)
    ensures image.id !in groups ==> r == Err(MissingGroup(image.id))
    ensures r.Ok? <==> (image.id in groups &&
      forall k :: 0 <= k < |groups[image.id]| ==> WellFormed(groups[image.id][k]))
    ensures r.Ok? ==> r.value.name == OutputFileName(image.fileName)
    ensures r.Ok? ==> |r.value.doc.bboxes| == |groups[image.id]| == |r.value.doc.keypoints|
  {
    if image.id !in groups then Err(MissingGroup(image.id))
    else
      match Assemble(groups[image.id], SizeOf(image), image.id)
      case Err(e) => Err(e)
      case Ok(doc) => Ok(OutputFile(OutputFileName(image.fileName), doc))
  }

  /** The image loop: images in array order, each written before the next
      is started, the run stopping at the first failure. */
  function Process(images: seq<Image>, groups: map<int, seq<Annotation>>): (r: Run)
    ensures |r.written| <= |images|
    ensures r.failure.None? ==> |r.written| == |images|
    decreases |images|
  {
    if |images| == 0 then Run([], None)
    else
      match ProcessImage(images[0], groups)
      case Err(e) => Run([], Some(e))
      case Ok(f) =>
        var rest := Process(images[1..], groups);
        Run([f] + rest.written, rest.failure)
  }

  /** What the image loop writes: file `i` is image `i`'s own result, and a
      failure is the error of the first image that fails, after all earlier
      files are written. */
  lemma {:induction false} ProcessSpec(images: seq<Image>, groups: map<int, seq<Annotation>>)
    ensures var r := Process(images, groups);
      && (forall i :: 0 <= i < |r.written| ==> ProcessImage(images[i], groups) == Ok(r.written[i]))
      && (r.failure.Some? ==>
            |r.written| < |images| && ProcessImage(images[|r.written|], groups) == Err(r.failure.value))
    decreases |images|
  {
    if |images| > 0 && ProcessImage(images[0], groups).Ok? {
      ProcessSpec(images[1..], groups);
      var r := Process(images, groups);
      var rest := Process(images[1..], groups);
      assert r.written == [ProcessImage(images[0], groups).value] + rest.written;
      forall i | 1 <= i < |r.written|
        ensures ProcessImage(images[i], groups) == Ok(r.written[i])
      {
        assert images[i] == images[1..][i - 1] && r.written[i] == rest.written[i - 1];
      }
      if r.failure.Some? {
        assert images[|r.written|] == images[1..][|rest.written|];
      }
    }
  }

  /** The whole conversion: group once, then run the image loop. */
  function ConvertAll(images: seq<Image>, anns: seq<Annotation>): (r: Run)
    ensures |r.written| <= |images|
    ensures r.failure.None? ==> |r.written| == |images|
    ensures forall k :: 0 <= k < |anns| ==> r.failure != Some(MissingGroup(anns[k].imageId))
  {
    ProcessSpec(images, GroupBy(anns));
    Process(images, GroupBy(anns))
  }

  /** The annotations directory after a sequence of writes. Each write
      opens its file for writing from scratch, so the last write to a name
      decides that file's contents. */
  function Directory(written: seq<OutputFile>): (dir: map<string, ImageDoc>)
    ensures forall i :: 0 <= i < |written| ==> written[i].name in dir
    ensures forall n :: n in dir ==> exists i :: 0 <= i < |written| && written[i].name == n
    decreases |written|
  {
    if |written| == 0 then map[]
    else
      var last := written[|written| - 1];
      var dir := Directory(written[..|written| - 1]);
      assert forall i :: 0 <= i < |written| - 1 ==> written[..|written| - 1][i] == written[i];
      dir[last.name := last.doc]
  }

  /** A file holds the document of the last write to its name. */
  lemma {:induction false} DirectoryLastWriteWins(written: seq<OutputFile>, i: nat)
    requires i < |written|
    requires forall j :: i < j < |written| ==> written[j].name != written[i].name
    ensures Directory(written)[written[i].name] == written[i].doc
    decreases |written|
  {
    if i < |written| - 1 {
      var init := written[..|written| - 1];
      assert init[i] == written[i];
      DirectoryLastWriteWins(init, i);
    }
  }

  /** Two images whose names share the text before the first dot write to
      the same annotation file, so the later one replaces the earlier. */
  lemma SharedStemOverwrites(images: seq<Image>, anns: seq<Annotation>, i: nat, j: nat)
    requires i < j < |ConvertAll(images, anns).written|
    requires Stem(images[i].fileName) == Stem(images[j].fileName)
    ensures ConvertAll(images, anns).written[i].name == ConvertAll(images, anns).written[j].name
  {
    ProcessSpec(images, GroupBy(anns));
  }

  /** When no later image shares its stem, the annotation file of image
      `i` ends up holding image `i`'s own document. */
  lemma DistinctStemKeepsFile(images: seq<Image>, anns: seq<Annotation>, i: nat)
    requires i < |ConvertAll(images, anns).written|
    requires forall j :: i < j < |images| ==> Stem(images[j].fileName) != Stem(images[i].fileName)
    ensures var written := ConvertAll(images, anns).written;
      && written[i].name == OutputFileName(images[i].fileName)
      && Directory(written)[written[i].name] == written[i].doc
  {
    var written := ConvertAll(images, anns).written;
    ProcessSpec(images, GroupBy(anns));
    forall j | i < j < |written|
      ensures written[j].name != written[i].name
    {
    }
    DirectoryLastWriteWins(written, i);
  }

  /** Worked case: `robot.1.png` and `robot.2.png` both write `robot.json`. */
  lemma StemCollisionExample()
    ensures Stem("robot.1.png") == Stem("robot.2.png") == "robot"
  {
    var p := "robot";
    var n1, n2 := "robot.1.png", "robot.2.png";
    assert p <= n1 by { assert n1[..5] == p; }
    assert p <= n2 by { assert n2[..5] == p; }
    assert n1[|p|] == '.' && n2[|p|] == '.';
    assert '.' !in p by {
      assert forall i :: 0 <= i < |p| ==> p[i] != '.';
    }
    StemUnique(n1, p);
    StemUnique(n2, p);
  }

  /** Parallel arrays, no carry-over: the file written for image `i` is
      named after its stem and holds exactly one box and one keypoint list
      per annotation of that image, entry `k` from the `k`-th of them. */
  lemma ConvertAllPerImage(images: seq<Image>, anns: seq<Annotation>, i: nat)
    requires i < |ConvertAll(images, anns).written|
    ensures var f := ConvertAll(images, anns).written[i];
            var g := Filter(anns, images[i].id);
            && f.name == OutputFileName(images[i].fileName)
            && |g| > 0
            && |f.doc.bboxes| == |g| && |f.doc.keypoints| == |g|
            && forall k :: 0 <= k < |g| ==>
                 && WellFormed(g[k])
                 && f.doc.bboxes[k] == BoxOf(g[k], SizeOf(images[i]))
                 && f.doc.keypoints[k] == KeypointsOf(g[k], SizeOf(images[i]))
  {
    var groups := GroupBy(anns);
    var image := images[i];
    ProcessSpec(images, groups);
    GroupByIsFilter(anns, image.id);
    var k :| 0 <= k < |anns| && anns[k].imageId == image.id;
    assert anns[k] in Filter(anns, image.id);
    assert ProcessImage(image, groups) == Ok(ConvertAll(images, anns).written[i]);
    var doc := Assemble(groups[image.id], SizeOf(image), image.id);
    assert doc.Ok?;
  }

  /** An image without annotations is not given an empty document: its
      lookup raises, and the run stops with the files of the images before
      it already written. */
  lemma MissingImageAborts(images: seq<Image>, anns: seq<Annotation>, i: nat)
    requires i < |images|
    requires forall j :: 0 <= j < i ==> ProcessImage(images[j], GroupBy(anns)).Ok?
    requires !Mentions(anns, images[i].id)
    ensures |ConvertAll(images, anns).written| == i
    ensures ConvertAll(images, anns).failure == Some(MissingGroup(images[i].id))
  {
    GroupByIsFilter(anns, images[i].id);
    ProcessSpec(images, GroupBy(anns));
  }

  /** One step of the inner loop: a well-formed annotation appends its box
      and its keypoint list to the buffer. */
  lemma AssembleExtend(group: seq<Annotation>, j: nat, size: Size, id: int, doc: ImageDoc)
    requires j < |group| && WellFormed(group[j])
    requires Assemble(group[..j], size, id) == Ok(doc)
    ensures Assemble(group[..j + 1], size, id) ==
      Ok(ImageDoc(doc.bboxes + [BoxOf(group[j], size)], doc.keypoints + [KeypointsOf(group[j], size)]))
  {
    assert group[..j + 1][..j] == group[..j];
  }

  /** A malformed annotation after well-formed ones is the error of the
      whole group. */
  lemma AssembleFail(group: seq<Annotation>, j: nat, size: Size, id: int)
    requires j < |group| && !WellFormed(group[j])
    requires Assemble(group[..j], size, id).Ok?
    ensures Assemble(group, size, id) == Err(AnnotationFailure(id, j, group[j]))
  {
    assert forall k :: 0 <= k < j ==> group[..j][k] == group[k];
    var r := Assemble(group, size, id);
    var k :| FirstMalformed(group, k) && r.error == AnnotationFailure(id, k, group[k]);
    assert k == j;
  }

  /** The inner loop over one image's annotations, appending to the
      buffer arrays it is given: on success the buffer has grown by exactly
      the assembled document of the group. */
  method FillBuffer(group: seq<Annotation>, size: Size, id: int,
                    bboxes0: seq<CornerBox>, keypoints0: seq<seq<Keypoint>>)
    returns (bboxes: seq<CornerBox>, keypoints: seq<seq<Keypoint>>, failure: Option<Failure>)
    ensures failure.None? ==> Assemble(group, size, id).Ok?
    ensures failure.None? ==> bboxes == bboxes0 + Assemble(group, size, id).value.bboxes
    ensures failure.None? ==> keypoints == keypoints0 + Assemble(group, size, id).value.keypoints
    ensures failure.Some? ==> Assemble(group, size, id) == Err(failure.value)
  {
    bboxes, keypoints := bboxes0, keypoints0;
    ghost var doc := ImageDoc([], []);
    var j := 0;
    while j < |group|
      invariant 0 <= j <= |group|
      invariant Assemble(group[..j], size, id) == Ok(doc)
      invariant bboxes == bboxes0 + doc.bboxes && keypoints == keypoints0 + doc.keypoints
    {
      var a := group[j];
      var box := UnpackBox(a.bbox);
      if box.None? {
        AssembleFail(group, j, size, id);
        return bboxes, keypoints, Some(BadBox(id, j));
      }
      bboxes := bboxes + [XywhToXyxy(box.value, size)];
      var kps := GetKeypoint(a.keypoints, size);
      if kps.None? {
        AssembleFail(group, j, size, id);
        return bboxes, keypoints, Some(BadKeypoints(id, j));
      }
      AssembleExtend(group, j, size, id, doc);
      keypoints := keypoints + [kps.value];
      doc := ImageDoc(doc.bboxes + [BoxOf(a, size)], doc.keypoints + [KeypointsOf(a, size)]);
      j := j + 1;
    }
    assert group[..j] == group;
    failure := None;
  }

  /** A run preceded by files already written. */
  function After(done: seq<OutputFile>, r: Run): Run
  {
    Run(done + r.written, r.failure)
  }

  /** One step of the image loop over the suffix starting at `i`: a
      successful image is written before the rest of the run. */
  lemma ProcessStep(images: seq<Image>, i: nat, groups: map<int, seq<Annotation>>, file: OutputFile)
    requires i < |images|
    requires ProcessImage(images[i], groups) == Ok(file)
    ensures Process(images[i..], groups) == After([file], Process(images[i + 1..], groups))
  {
    assert images[i..][0] == images[i] && images[i..][1..] == images[i + 1..];
  }

  /** A failing image ends the run over the suffix starting at `i`. */
  lemma ProcessStop(images: seq<Image>, i: nat, groups: map<int, seq<Annotation>>, e: Failure)
    requires i < |images|
    requires ProcessImage(images[i], groups) == Err(e)
    ensures Process(images[i..], groups) == Run([], Some(e))
  {
    assert images[i..][0] == images[i];
  }

  /** Writing `done` and then `file` before a run is writing `done + [file]`. */
  lemma AfterAppend(done: seq<OutputFile>, file: OutputFile, r: Run)
    ensures After(done, After([file], r)) == After(done + [file], r)
  {
    assert done + ([file] + r.written) == done + [file] + r.written;
  }

  /** The image loop as the script runs it: one shared buffer
      `annotation_content`, created before the loop, filled by the inner
      loop, written out under the image's stem, and reset after each write;
      images in array order, the first failure ending the run. */
  method RunConversion(images: seq<Image>, anns: seq<Annotation>)
    returns (written: seq<OutputFile>, failure: Option<Failure>)
    ensures Run(written, failure) == ConvertAll(images, anns)
  {
    var groups := GroupBy(anns);
    var bboxes: seq<CornerBox> := [];
    var keypoints: seq<seq<Keypoint>> := [];
    written := [];
    var i := 0;
    assert images[0..] == images;
    while i < |images|
      invariant 0 <= i <= |images|
      invariant bboxes == [] && keypoints == []
      invariant Process(images, groups) == After(written, Process(images[i..], groups))
    {
      var image := images[i];
      if image.id !in groups {
        ProcessStop(images, i, groups, MissingGroup(image.id));
        return written, Some(MissingGroup(image.id));
      }
      var err;
      bboxes, keypoints, err := FillBuffer(groups[image.id], SizeOf(image), image.id, bboxes, keypoints);
      if err.Some? {
        ProcessStop(images, i, groups, err.value);
        return written, err;
      }
      ghost var doc := Assemble(groups[image.id], SizeOf(image), image.id).value;
      assert bboxes == doc.bboxes && keypoints == doc.keypoints;
      var file := OutputFile(OutputFileName(image.fileName), ImageDoc(bboxes, keypoints));
      assert ProcessImage(image, groups) == Ok(file);
      ProcessStep(images, i, groups, file);
      AfterAppend(written, file, Process(images[i + 1..], groups));
      written := written + [file];
      bboxes, keypoints := [], [];
      i := i + 1;
    }
    assert images[i..] == [];
    failure := None;
  }
}
