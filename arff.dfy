/**
 * `ARFFFile`: reading labelled examples from the lines of a WEKA ARFF file.
 * A data line holds comma-separated numbers, the last one being the class
 * label; `%` starts a comment.  The file is given as its sequence of lines
 * (reading it is not modelled), and `Double.parseDouble` and
 * `Integer.parseInt` are the oracle fields of `NumberParsers`.
 */
module Arff {
  import opened Wrappers
  import opened Doubles
  import opened Instances
  import opened BaseObjects

  /** The comment symbol of a data file. */
  const COMMENT_SYMBOL: char := '%'
  /** The separator of a data file. */
  const SEPARATOR: char := ','
  /** The label given to a line whose label does not parse. */
  const UNPARSEABLE_LABEL: int := -2

  /** `Double.parseDouble` and `Integer.parseInt`: `None` where Java throws `NumberFormatException`. */
  datatype NumberParsers = NumberParsers(parseDouble: string -> Option<Double>, parseInt: string -> Option<int>)

  // ---------------------------------------------------------------------
  // Strings
  // ---------------------------------------------------------------------

  /** `String.indexOf(c)`: the first position of `c`, or -1. */
  function IndexOf(s: string, c: char): (i: int)
    ensures -1 <= i
    ensures i == -1 <==> c !in s
    ensures 0 <= i ==> i < |s| && s[i] == c && c !in s[..i]
    decreases |s|
  {
    if |s| == 0 then -1
    else if s[0] == c then 0
    else
      var j := IndexOf(s[1..], c);
      if j == -1 then -1
      else
        assert s[..j + 1] == [s[0]] + s[1..][..j];
        j + 1
  }

  /** `removeComment`: null stays null; otherwise the line up to its first `%`. */
  function RemoveComment(line: Option<string>): (r: Option<string>)
    ensures r.None? <==> line.None?
    ensures line.Some? ==> COMMENT_SYMBOL !in r.value && r.value <= line.value
    ensures line.Some? && COMMENT_SYMBOL !in line.value ==> r.value == line.value
    ensures line.Some? && COMMENT_SYMBOL in line.value ==> line.value[|r.value|] == COMMENT_SYMBOL
  {
    match line
    case None => None
    case Some(l) =>
      if IndexOf(l, COMMENT_SYMBOL) != -1 then Some(l[..IndexOf(l, COMMENT_SYMBOL)]) else Some(l)
  }

  /** The pieces of `s` between occurrences of `sep`, empty ones included. */
  function Pieces(s: string, sep: char): (r: seq<string>)
    ensures |r| >= 1
    decreases |s|
  {
    if |s| == 0 then [""]
    else
      var rest := Pieces(s[1..], sep);
      if s[0] == sep then [""] + rest
      else [[s[0]] + rest[0]] + rest[1..]
  }

  /** The pieces joined back with `sep` between them. */
  function Join(ps: seq<string>, sep: char): string
    requires |ps| >= 1
    decreases |ps|
  {
    if |ps| == 1 then ps[0] else ps[0] + [sep] + Join(ps[1..], sep)
  }

  /** Splitting and joining give the string back, and no piece holds the separator. */
  lemma {:induction false} PiecesJoin(s: string, sep: char)
    ensures Join(Pieces(s, sep), sep) == s
    ensures forall j :: 0 <= j < |Pieces(s, sep)| ==> sep !in Pieces(s, sep)[j]
    decreases |s|
  {
    if |s| > 0 {
      PiecesJoin(s[1..], sep);
      var rest := Pieces(s[1..], sep);
      if s[0] == sep {
        assert Pieces(s, sep)[1..] == rest;
      } else {
        var r := Pieces(s, sep);
        assert r[1..] == rest[1..];
        if |rest| > 1 {
          assert rest == [rest[0]] + rest[1..];
        }
      }
    }
  }

  /** The pieces with the empty ones at the end removed. */
  function DropTrailingEmpty(ps: seq<string>): (r: seq<string>)
    ensures r <= ps
    ensures |r| > 0 ==> r[|r| - 1] != ""
    ensures forall j :: |r| <= j < |ps| ==> ps[j] == ""
    decreases |ps|
  {
    if |ps| == 0 then []
    else if ps[|ps| - 1] == "" then DropTrailingEmpty(ps[..|ps| - 1])
    else ps
  }

  /**
   * `String.split` on a one-character separator: the whole string when the
   * separator does not occur, otherwise the pieces between separators with
   * the trailing empty pieces dropped.
   */
  function Split(s: string, sep: char): (r: seq<string>)
    ensures sep !in s ==> r == [s]
    ensures sep in s ==> r <= Pieces(s, sep) && (|r| > 0 ==> r[|r| - 1] != "")
    ensures sep in s ==> forall j :: |r| <= j < |Pieces(s, sep)| ==> Pieces(s, sep)[j] == ""
  {
    if sep !in s then [s] else DropTrailingEmpty(Pieces(s, sep))
  }

  /** The pieces of a split hold no separator, and joining them with the dropped empty pieces gives the string back. */
  lemma SplitRoundTrip(s: string, sep: char)
    ensures forall j :: 0 <= j < |Split(s, sep)| ==> sep !in Split(s, sep)[j]
    ensures var ps := Pieces(s, sep);
            var r := Split(s, sep);
            |r| <= |ps| && ps == r + seq(|ps| - |r|, _ => "") && Join(ps, sep) == s
  {
    PiecesJoin(s, sep);
    var ps := Pieces(s, sep);
    var r := Split(s, sep);
    if sep !in s {
      NoSeparatorOnePiece(s, sep);
    }
    assert ps == r + seq(|ps| - |r|, _ => "");
  }

  /** Without the separator there is a single piece, the string itself. */
  lemma {:induction false} NoSeparatorOnePiece(s: string, sep: char)
    requires sep !in s
    ensures Pieces(s, sep) == [s]
    decreases |s|
  {
    if |s| > 0 {
      assert sep !in s[1..];
      NoSeparatorOnePiece(s[1..], sep);
      assert [s[0]] + s[1..] == s;
    }
  }

  /** The components of a line: its comment removed, split at the separator. */
  function LineComponents(line: string): seq<string>
  {
    Split(RemoveComment(Some(line)).value, SEPARATOR)
  }

  // ---------------------------------------------------------------------
  // Parsing lines
  // ---------------------------------------------------------------------

  /** Every component parsed as a double, or `None` when one does not parse. */
  function ParseAll(comps: seq<string>, parsers: NumberParsers): (r: Option<seq<Double>>)
    ensures r.Some? <==> forall i :: 0 <= i < |comps| ==> parsers.parseDouble(comps[i]).Some?
    ensures r.Some? ==> |r.value| == |comps|
    ensures r.Some? ==> forall i :: 0 <= i < |comps| ==> r.value[i] == parsers.parseDouble(comps[i]).value
    decreases |comps|
  {
    if |comps| == 0 then Some([])
    else
      var front := ParseAll(comps[..|comps| - 1], parsers);
      var last := parsers.parseDouble(comps[|comps| - 1]);
      if front.None? || last.None? then
        None
      else Some(front.value + [last.value])
  }

  /** `doesLineContainValidData`: one double per component, or null for a null line, no component or one that does not parse. */
  function LineData(line: Option<string>, parsers: NumberParsers): (r: Option<seq<Double>>)
    ensures r.Some? ==> line.Some? && |r.value| == |LineComponents(line.value)| > 0
  {
    match line
    case None => None
    case Some(l) =>
      var components := LineComponents(l);
      if |components| > 0 then ParseAll(components, parsers) else None
  }

  /** `doesLineContainValidData`, filling an array one component at a time. */
  method DoesLineContainValidData(line: Option<string>, parsers: NumberParsers) returns (result: Option<seq<Double>>)
    ensures result == LineData(line, parsers)
  {
    if line.None? {
      return None;
    }
    var components := Split(RemoveComment(line).value, SEPARATOR);
    var data := new Double[|components|];
    if |components| > 0 {
      var i := 0;
      while i < |components|
        invariant 0 <= i <= |components|
        invariant forall j :: 0 <= j < i ==> parsers.parseDouble(components[j]).Some?
        invariant forall j :: 0 <= j < i ==> data[j] == parsers.parseDouble(components[j]).value
      {
        var parsed := parsers.parseDouble(components[i]);
        if parsed.None? {
          return None;
        }
        data[i] := parsed.value;
        i := i + 1;
      }
      assert data[..] == ParseAll(components, parsers).value;
      return Some(data[..]);
    } else {
      return None;
    }
  }

  // ---------------------------------------------------------------------
  // The validity scan
  // ---------------------------------------------------------------------

  /** Lines the scan passes over: empty ones and those starting with `@`, a line break or `%`. */
  predicate Skipped(line: string)
  {
    |line| == 0 || line[0] == '@' || line[0] == '\n' || line[0] == '\r' || line[0] == COMMENT_SYMBOL
  }

  /** What the scan has gathered: the number of examples, the feature count (0 while unset) and the count per label. */
  datatype ScanState = ScanState(ex: int, ftCount: int, cDist: map<int, int>)

  /** One line of `checkValidity`; `None` where it returns false. */
  function ScanStep(st: ScanState, line: string, parsers: NumberParsers): Option<ScanState>
  {
    if Skipped(line) then Some(st)
    else
      match LineData(Some(line), parsers)
      case None => None
      case Some(data) =>
        var tempFeatureCount := |data| - 1;
        var clazz := ToInt(data[|data| - 1]);
        var currentClassCount := (if clazz in st.cDist then st.cDist[clazz] else 0) + 1;
        var cDist := st.cDist[clazz := currentClassCount];
        if st.ftCount == 0 then Some(ScanState(st.ex + 1, tempFeatureCount, cDist))
        else if st.ftCount != tempFeatureCount then None
        else Some(ScanState(st.ex + 1, st.ftCount, cDist))
  }

  /** The scan over the first `k` lines. */
  function ScanLines(lines: seq<string>, k: nat, parsers: NumberParsers): Option<ScanState>
    requires k <= |lines|
  {
    if k == 0 then Some(ScanState(0, 0, map[]))
    else
      match ScanLines(lines, k - 1, parsers)
      case None => None
      case Some(st) => ScanStep(st, lines[k - 1], parsers)
  }

  /** The number of data lines among the first `k`. */
  function DataLines(lines: seq<string>, k: nat): nat
    requires k <= |lines|
  {
    if k == 0 then 0 else DataLines(lines, k - 1) + (if Skipped(lines[k - 1]) then 0 else 1)
  }

  /** The label of a data line that parses. */
  function LabelOf(line: string, parsers: NumberParsers): Option<int>
  {
    match LineData(Some(line), parsers)
    case None => None
    case Some(data) => Some(ToInt(data[|data| - 1]))
  }

  /** The number of data lines among the first `k` with label `c`. */
  function LabelCount(lines: seq<string>, k: nat, c: int, parsers: NumberParsers): nat
    requires k <= |lines|
  {
    if k == 0 then 0
    else LabelCount(lines, k - 1, c, parsers) + (if !Skipped(lines[k - 1]) && LabelOf(lines[k - 1], parsers) == Some(c) then 1 else 0)
  }

  /** The number of features of a data line that parses. */
  function FeatureCountOf(line: string, parsers: NumberParsers): int
    requires LineData(Some(line), parsers).Some?
  {
    |LineData(Some(line), parsers).value| - 1
  }

  /** A successful scan has seen only data lines that parse, and counted them. */
  lemma {:induction false} ScanCountsExamples(lines: seq<string>, k: nat, parsers: NumberParsers)
    requires k <= |lines| && ScanLines(lines, k, parsers).Some?
    ensures ScanLines(lines, k, parsers).value.ex == DataLines(lines, k)
    ensures forall j :: 0 <= j < k && !Skipped(lines[j]) ==> LineData(Some(lines[j]), parsers).Some?
  {
    if k > 0 {
      var prev := ScanLines(lines, k - 1, parsers);
      assert prev.Some?;
      ScanCountsExamples(lines, k - 1, parsers);
      StepCounts(prev.value, lines[k - 1], parsers);
    }
  }

  /** One successful step counts a data line, which parses, and passes over a skipped one. */
  lemma StepCounts(st: ScanState, line: string, parsers: NumberParsers)
    requires ScanStep(st, line, parsers).Some?
    ensures ScanStep(st, line, parsers).value.ex == st.ex + (if Skipped(line) then 0 else 1)
    ensures !Skipped(line) ==> LineData(Some(line), parsers).Some?
  {
  }

  /** A data line that does not parse makes the scan fail. */
  lemma BadLineFails(lines: seq<string>, j: nat, parsers: NumberParsers)
    requires j < |lines| && !Skipped(lines[j]) && LineData(Some(lines[j]), parsers).None?
    ensures ScanLines(lines, |lines|, parsers).None?
  {
    if ScanLines(lines, |lines|, parsers).Some? {
      ScanCountsExamples(lines, |lines|, parsers);
    }
  }

  /**
   * After a successful scan every data line has the recorded feature count
   * or none at all: a count of 0 does not fix the count, so such lines may
   * come first.
   */
  lemma {:induction false} ScanFeatureCounts(lines: seq<string>, k: nat, parsers: NumberParsers)
    requires k <= |lines| && ScanLines(lines, k, parsers).Some?
    ensures ScanLines(lines, k, parsers).value.ftCount >= 0
    ensures forall j :: 0 <= j < k && !Skipped(lines[j]) ==>
              LineData(Some(lines[j]), parsers).Some?
              && (FeatureCountOf(lines[j], parsers) == 0 || FeatureCountOf(lines[j], parsers) == ScanLines(lines, k, parsers).value.ftCount)
  {
    if k > 0 {
      ScanFeatureCounts(lines, k - 1, parsers);
      ScanCountsExamples(lines, k, parsers);
    }
  }

  /** Two data lines with different non-zero feature counts make the scan fail. */
  lemma MismatchFails(lines: seq<string>, i: nat, j: nat, parsers: NumberParsers)
    requires i < |lines| && j < |lines| && !Skipped(lines[i]) && !Skipped(lines[j])
    requires LineData(Some(lines[i]), parsers).Some? && LineData(Some(lines[j]), parsers).Some?
    requires FeatureCountOf(lines[i], parsers) != 0 && FeatureCountOf(lines[j], parsers) != 0
    requires FeatureCountOf(lines[i], parsers) != FeatureCountOf(lines[j], parsers)
    ensures ScanLines(lines, |lines|, parsers).None?
  {
    if ScanLines(lines, |lines|, parsers).Some? {
      ScanFeatureCounts(lines, |lines|, parsers);
    }
  }

  /** After a successful scan the count of each label is the number of data lines carrying it. */
  lemma {:induction false} ScanCountsLabels(lines: seq<string>, k: nat, parsers: NumberParsers)
    requires k <= |lines| && ScanLines(lines, k, parsers).Some?
    ensures forall c :: c in ScanLines(lines, k, parsers).value.cDist ==>
              ScanLines(lines, k, parsers).value.cDist[c] == LabelCount(lines, k, c, parsers) > 0
    ensures forall c :: c !in ScanLines(lines, k, parsers).value.cDist ==> LabelCount(lines, k, c, parsers) == 0
  {
    if k > 0 {
      ScanCountsLabels(lines, k - 1, parsers);
    }
  }

  // ---------------------------------------------------------------------
  // The file object
  // ---------------------------------------------------------------------

  class ArffFile {
    /** The number of data lines. */
    var examples: int
    /** The number of features per data line. */
    var features: int
    /** The example count of each label, in ascending label order; null until a scan succeeds. */
    var classDist: Option<seq<int>>
    var isValid: bool
    const parsers: NumberParsers

    /** `new ARFFFile(path, ...)`: the fields' defaults, then the validity scan of the file's lines. */
    constructor (lines: seq<string>, parsers: NumberParsers)
      ensures this.parsers == parsers
      ensures isValid <==> ScanLines(lines, |lines|, parsers).Some?
      ensures !isValid ==> examples == 0 && features == 0 && classDist.None?
      ensures isValid ==> var st := ScanLines(lines, |lines|, parsers).value;
                          examples == st.ex && features == st.ftCount && classDist == Some(ValuesInKeyOrder(st.cDist))
    {
      examples := 0;
      features := 0;
      classDist := None;
      isValid := false;
      this.parsers := parsers;
      new;
      var _ := CheckValidity(lines);
    }

    /**
     * `checkValidity`: scans every line; a data line that does not parse,
     * or whose feature count differs from the recorded non-zero one, ends
     * the scan with false and leaves the fields alone.  Otherwise it
     * records the counts and marks the file valid.
     */
    method CheckValidity(lines: seq<string>) returns (ok: bool)
      modifies this
      ensures ok <==> ScanLines(lines, |lines|, parsers).Some?
      ensures !ok ==> examples == old(examples) && features == old(features)
                      && classDist == old(classDist) && isValid == old(isValid)
      ensures ok ==> var st := ScanLines(lines, |lines|, parsers).value;
                     && examples == st.ex && features == st.ftCount
                     && classDist == Some(ValuesInKeyOrder(st.cDist)) && isValid
    {
      var ftCount := 0;
      var cDist: map<int, int> := map[];
      var ex := 0;
      var lineNumber := 0;
      while lineNumber < |lines|
        invariant 0 <= lineNumber <= |lines|
        invariant ScanLines(lines, lineNumber, parsers) == Some(ScanState(ex, ftCount, cDist))
        invariant unchanged(this)
      {
        var next := ScanLine(ScanState(ex, ftCount, cDist), lines[lineNumber]);
        lineNumber := lineNumber + 1;
        if next.None? {
          NoRecovery(lines, lineNumber, parsers);
          return false;
        }
        ex, ftCount, cDist := next.value.ex, next.value.ftCount, next.value.cDist;
      }
      features := ftCount;
      examples := ex;
      var dist := ToPrimitiveIntMap(Some(cDist));
      classDist := Some(dist[..]);
      isValid := true;
      return isValid;
    }

    /**
     * The body of the loop of `checkValidity` for one line: a skipped line
     * changes nothing; a data line counts one more example and one more of
     * its label, and fixes the feature count if it is still 0; `None` where
     * the scan returns false.
     */
    method ScanLine(before: ScanState, line: string) returns (next: Option<ScanState>)
      ensures next == ScanStep(before, line, parsers)
    {
      var ex, ftCount, cDist := before.ex, before.ftCount, before.cDist;
      if Skipped(line) {
        return Some(before);
      }
      var data := DoesLineContainValidData(Some(line), parsers);
      if data.Some? {
        ex := ex + 1;
        var tempFeatureCount := |data.value| - 1;
        var clazz := ToInt(data.value[|data.value| - 1]);
        var currentClassCount := 0;
        if clazz in cDist {
          currentClassCount := cDist[clazz];
        }
        currentClassCount := currentClassCount + 1;
        cDist := cDist[clazz := currentClassCount];
        if ftCount == 0 {
          ftCount := tempFeatureCount;
        } else if ftCount != tempFeatureCount {
          return None;
        }
        return Some(ScanState(ex, ftCount, cDist));
      } else {
        return None;
      }
    }

    /** `createInstance(double[])`: features are all entries but the last, the label the last one cast to int; an empty array makes Java throw. */
    method CreateInstanceFromData(data: Option<seq<Double>>) returns (inst: Instance?, thrown: bool)
      ensures !isValid || data.None? ==> inst == null && !thrown
      ensures isValid && data.Some? && |data.value| == 0 ==> inst == null && thrown
      ensures isValid && data.Some? && |data.value| > 0 ==>
                && !thrown && inst != null && fresh(inst)
                && inst.features == data.value[..|data.value| - 1]
                && inst.classLabel == ToInt(data.value[|data.value| - 1])
                && inst.weight == 1.0
    {
      if !isValid {
        return null, false;
      }
      if data.None? {
        return null, false;
      }
      var values := data.value;
      if |values| == 0 {
        return null, true;
      }
      inst := new Instance();
      if |values| > 1 {
        var i := 0;
        while i < |values| - 1
          invariant 0 <= i <= |values| - 1
          invariant inst.features == values[..i] && inst.weight == 1.0
        {
          inst.AddFeature(values[i]);
          i := i + 1;
        }
      }
      inst.SetClassLabel(ToInt(values[|values| - 1]));
      return inst, false;
    }

    /**
     * `createInstance(String)`: the components but the last are the
     * features, and a feature that does not parse gives null; the last
     * component is the label, -2 when it does not parse.  A line without
     * components makes Java throw.
     */
    method CreateInstanceFromLine(line: Option<string>) returns (inst: Instance?, thrown: bool)
      ensures !isValid || line.None? ==> inst == null && !thrown
      ensures isValid && line.Some? ==>
                var comps := LineComponents(line.value);
                && (|comps| == 0 ==> inst == null && thrown)
                && (|comps| > 0 && ParseAll(comps[..|comps| - 1], parsers).None? ==> inst == null && !thrown)
                && (|comps| > 0 && ParseAll(comps[..|comps| - 1], parsers).Some? ==>
                      && !thrown && inst != null && fresh(inst)
                      && inst.features == ParseAll(comps[..|comps| - 1], parsers).value
                      && inst.classLabel == (match parsers.parseInt(comps[|comps| - 1])
                                             case Some(parsedLabel) => parsedLabel
                                             case None => UNPARSEABLE_LABEL)
                      && inst.weight == 1.0)
    {
      if !isValid {
        return null, false;
      }
      if line.None? {
        return null, false;
      }
      var components := Split(RemoveComment(line).value, SEPARATOR);
      inst := new Instance();
      if |components| > 1 {
        var i := 0;
        while i < |components| - 1
          invariant 0 <= i <= |components| - 1
          invariant forall j :: 0 <= j < i ==> parsers.parseDouble(components[j]).Some?
          invariant |inst.features| == i && inst.weight == 1.0
          invariant forall j :: 0 <= j < i ==> inst.features[j] == parsers.parseDouble(components[j]).value
        {
          var parsed := parsers.parseDouble(components[i]);
          if parsed.None? {
            assert parsers.parseDouble(components[..|components| - 1][i]).None?;
            return null, false;
          }
          inst.AddFeature(parsed.value);
          i := i + 1;
        }
      }
      if |components| == 0 {
        return null, true;
      }
      var parsedLabel := parsers.parseInt(components[|components| - 1]);
      if parsedLabel.Some? {
        inst.SetClassLabel(parsedLabel.value);
      } else {
        inst.SetClassLabel(UNPARSEABLE_LABEL);
      }
      return inst, false;
    }
  }

  /** Once a line fails, the scan of every longer prefix fails. */
  lemma {:induction false} NoRecovery(lines: seq<string>, k: nat, parsers: NumberParsers)
    requires k <= |lines| && ScanLines(lines, k, parsers).None?
    ensures ScanLines(lines, |lines|, parsers).None?
    decreases |lines| - k
  {
    if k < |lines| {
      NoRecovery(lines, k + 1, parsers);
    }
  }
}
