/** The output-name rule of coco2rcnn.py: `file_name.split('.')[0]` plus
    the `.json` extension. */
module FileNames {

  /** Python's `str.split(sep)` for a one-character separator: the pieces
      between successive separators, always at least one (the empty string
      splits to `[""]`). */
  function Split(s: string, sep: char): (parts: seq<string>)
    ensures |parts| >= 1
    ensures forall i :: 0 <= i < |parts| ==> sep !in parts[i]
    ensures parts[0] <= s
    ensures |parts[0]| < |s| ==> s[|parts[0]|] == sep
    decreases |s|
  {
    if |s| == 0 then [""]
    else
      var rest := Split(s[1..], sep);
      if s[0] == sep then [""] + rest
      else [[s[0]] + rest[0]] + rest[1..]
  }

  /** Python's `sep.join(parts)`. */
  function Join(parts: seq<string>, sep: char): (s: string)
    requires |parts| >= 1
    ensures parts[0] <= s
    decreases |parts|
  {
    if |parts| == 1 then parts[0]
    else parts[0] + [sep] + Join(parts[1..], sep)
  }

  /** Splitting loses nothing: joining the pieces gives back the string. */
  lemma {:induction false} JoinSplit(s: string, sep: char)
    ensures Join(Split(s, sep), sep) == s
    decreases |s|
  {
    if |s| > 0 {
      var rest := Split(s[1..], sep);
      JoinSplit(s[1..], sep);
      var parts := Split(s, sep);
      if s[0] == sep {
        assert parts[1..] == rest;
      } else if |rest| == 1 {
        assert parts == [[s[0]] + rest[0]];
      } else {
        assert parts[1..] == rest[1..];
        assert Join(rest, sep) == rest[0] + [sep] + Join(rest[1..], sep);
        assert [s[0]] + s[1..] == s;
      }
    }
  }

  /** A piece without separators, followed by a separator, splits off as
      the first piece. */
  lemma {:induction false} SplitCons(p: string, sep: char, t: string)
    requires sep !in p
    ensures Split(p + [sep] + t, sep) == [p] + Split(t, sep)
    decreases |p|
  {
    if |p| == 0 {
      assert p + [sep] + t == [sep] + t;
      assert ([sep] + t)[1..] == t;
    } else {
      SplitCons(p[1..], sep, t);
      assert (p + [sep] + t)[1..] == p[1..] + [sep] + t;
      assert [p[0]] + p[1..] == p;
    }
  }

  /** A string without separators splits to itself alone. */
  lemma {:induction false} SplitNoSep(p: string, sep: char)
    requires sep !in p
    ensures Split(p, sep) == [p]
    decreases |p|
  {
    if |p| > 0 {
      SplitNoSep(p[1..], sep);
      assert [p[0]] + p[1..] == p;
    }
  }

  /** The other round trip: pieces free of separators come back from
      splitting their join. */
  lemma {:induction false} SplitJoin(parts: seq<string>, sep: char)
    requires |parts| >= 1
    requires forall i :: 0 <= i < |parts| ==> sep !in parts[i]
    ensures Split(Join(parts, sep), sep) == parts
    decreases |parts|
  {
    if |parts| == 1 {
      SplitNoSep(parts[0], sep);
    } else {
      SplitJoin(parts[1..], sep);
      SplitCons(parts[0], sep, Join(parts[1..], sep));
      assert [parts[0]] + parts[1..] == parts;
    }
  }

  /** `file_name.split('.')[0]`: the text before the first dot, or the whole
      name when it has none. */
  function Stem(name: string): (stem: string)
    ensures stem <= name
    ensures '.' !in stem
    ensures |stem| < |name| ==> name[|stem|] == '.'
  {
    Split(name, '.')[0]
  }

  /** The three properties of `Stem` determine it: any dot-free prefix that
      ends at a dot or at the end of the name is the stem. */
  lemma StemUnique(name: string, p: string)
    requires p <= name && '.' !in p
    requires |p| == |name| || name[|p|] == '.'
    ensures p == Stem(name)
  {
  }

  /** The annotation file written for an image. */
  function OutputFileName(name: string): (out: string)
    ensures Stem(name) <= out && out[|Stem(name)|..] == ".json"
    ensures '.' !in out[..|out| - 5]
  {
    Stem(name) + ".json"
  }

  /** Worked case: only the text before the first dot survives. */
  lemma StemExample()
    ensures Stem("robot.annotated.png") == "robot"
  {
    var name := "robot.annotated.png";
    var p := "robot";
    assert p <= name by { assert name[..5] == p; }
    assert name[|p|] == '.';
    assert '.' !in p by {
      assert forall i :: 0 <= i < |p| ==> p[i] != '.';
    }
    StemUnique(name, p);
  }
}
