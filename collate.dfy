/**
 * Collation of every image folder's "data.txt" into one CSV (the "Collate
 * Data" command). Each folder contributes a row of its path components and
 * values; the first folder read fixes the header row, and a folder whose keys
 * differ is recorded as skipped.
 *
 * Reading "data.txt" is I/O and its outcome is a parameter: `None` stands
 * for a read that throws.
 */
module Collate {
  import opened Regions
  import Text
  import Quantify

  const TitleFields := ["Type", "Stage", "Group", "Embryo", "Region", "Image"]
  /** "Type,Stage,Group,Embryo,Region,Image" */
  const Title := Text.Join(TitleFields, ",")
  const SkipMessage := "SKIPPED: different headings found for image at "

  /** `s` with every backslash turned into a slash. */
  function Slashed(s: string): (r: string)
    ensures |r| == |s|
    ensures forall k :: 0 <= k < |s| ==> r[k] == if s[k] == '\\' then '/' else s[k]
  {
    seq(|s|, k requires 0 <= k < |s| => if s[k] == '\\' then '/' else s[k])
  }

  /**
   * The path components of a folder: the folder path minus as many leading
   * characters as the selected directory has, split at '/' or '\'. A folder
   * path shorter than the selected directory throws.
   */
  function Components(basePath: string, selectedDir: string): Option<seq<string>>
  {
    if |basePath| < |selectedDir| then None
    else Some(Text.Split(Slashed(basePath[|selectedDir|..]), '/'))
  }

  /** The key of a data line: the text before its first '='; a line made only of '=' throws. */
  function Key(line: string): Option<string>
  {
    var f := Text.Split(line, '=');
    if |f| == 0 then None else Some(f[0])
  }

  /**
   * The value of a data line: its second '='-field with the last character
   * (the line terminator on files written with CR LF) dropped. A line with
   * no second field, or an empty one, throws.
   */
  function Value(line: string): Option<string>
  {
    var f := Text.Split(line, '=');
    if |f| < 2 || |f[1]| == 0 then None else Some(f[1][..|f[1]| - 1])
  }

  /** All the values, or `None` if any of them is missing. */
  function Collect(xs: seq<Option<string>>): (r: Option<seq<string>>)
    ensures r.Some? <==> forall k :: 0 <= k < |xs| ==> xs[k].Some?
    ensures r.Some? ==> |r.value| == |xs| && forall k :: 0 <= k < |xs| ==> r.value[k] == xs[k].value
  {
    if |xs| == 0 then Some([])
    else
      var init := xs[..|xs| - 1];
      var rest := Collect(init);
      assert forall k :: 0 <= k < |init| ==> init[k] == xs[k];
      if rest.None? || xs[|xs| - 1].None? then None else Some(rest.value + [xs[|xs| - 1].value])
  }

  /** Every line's key, or `None` if any line throws. */
  function Keys(lines: seq<string>): (r: Option<seq<string>>)
    ensures r.Some? <==> forall k :: 0 <= k < |lines| ==> Key(lines[k]).Some?
    ensures r.Some? ==> |r.value| == |lines| && forall k :: 0 <= k < |lines| ==> r.value[k] == Key(lines[k]).value
  {
    var xs := seq(|lines|, k requires 0 <= k < |lines| => Key(lines[k]));
    assert forall k :: 0 <= k < |lines| ==> xs[k] == Key(lines[k]);
    Collect(xs)
  }

  /** Every line's value, or `None` if any line throws. */
  function Values(lines: seq<string>): (r: Option<seq<string>>)
    ensures r.Some? <==> forall k :: 0 <= k < |lines| ==> Value(lines[k]).Some?
    ensures r.Some? ==> |r.value| == |lines| && forall k :: 0 <= k < |lines| ==> r.value[k] == Value(lines[k]).value
  {
    var xs := seq(|lines|, k requires 0 <= k < |lines| => Value(lines[k]));
    assert forall k :: 0 <= k < |lines| ==> xs[k] == Value(lines[k]);
    Collect(xs)
  }

  /** The header row built from the keys. */
  function Headings(keys: seq<string>): string
  {
    Title + "," + Text.Join(keys, ",")
  }

  /**
   * Everything `process` computes before it touches any state: the header
   * row and the data row of one folder, or `None` when any step throws.
   */
  function Parse(basePath: string, selectedDir: string, content: Option<string>): (r: Option<(string, string)>)
    ensures r.Some? <==>
      && content.Some? && |basePath| >= |selectedDir|
      && (forall k :: 0 <= k < |Text.Split(content.value, '\n')| ==> Key(Text.Split(content.value, '\n')[k]).Some?)
      && (forall k :: 0 <= k < |Text.Split(content.value, '\n')| ==> Value(Text.Split(content.value, '\n')[k]).Some?)
  {
    if content.None? then None
    else
      var path := Components(basePath, selectedDir);
      var lines := Text.Split(content.value, '\n');
      var keys := Keys(lines);
      var values := Values(lines);
      if path.None? || keys.None? || values.None? then None
      else Some((Headings(keys.value), Text.Join(path.value, ",") + "," + Text.Join(values.value, ",")))
  }

  /** The collator's state: the fixed header row and the CSV text so far (both null before the first folder). */
  datatype State = State(headers: Option<string>, output: Option<string>)

  /** Header row and output are set together, and the output begins with the header row on a line of its own. */
  predicate Consistent(st: State)
  {
    && (st.headers.Some? <==> st.output.Some?)
    && (st.output.Some? ==>
          && |st.headers.value| + 1 <= |st.output.value|
          && st.output.value[..|st.headers.value| + 1] == st.headers.value + "\n")
  }

  /** The state change of a `process` call whose parse gave `parsed`. */
  function Apply(st: State, parsed: Option<(string, string)>, basePath: string): State
    requires Consistent(st)
  {
    if parsed.None? then st
    else
      var (headings, data) := parsed.value;
      var started := if st.output.None? then State(Some(headings), Some(headings + "\n")) else st;
      if started.headers.value == headings then State(started.headers, Some(started.output.value + data + "\n"))
      else State(started.headers, Some(started.output.value + SkipMessage + basePath + "\n"))
  }

  /** The state change of one `process` call. */
  function Step(st: State, selectedDir: string, basePath: string, content: Option<string>): State
    requires Consistent(st)
  {
    Apply(st, Parse(basePath, selectedDir, content), basePath)
  }

  /**
   * One `process` call keeps the state consistent, never changes a fixed header
   * row, and only appends to the output: nothing when the folder throws, its
   * data row when its keys match, a "SKIPPED" line naming it otherwise. The
   * first folder that parses starts the output with its header row.
   */
  lemma StepAppends(st: State, parsed: Option<(string, string)>, basePath: string)
    requires Consistent(st)
    ensures var next := Apply(st, parsed, basePath);
            && Consistent(next)
            && (st.headers.Some? ==> next.headers == st.headers)
            && (st.output.Some? ==> next.output.Some? && |st.output.value| <= |next.output.value|
                                    && next.output.value[..|st.output.value|] == st.output.value)
    ensures var next := Apply(st, parsed, basePath);
            st.output.Some? ==>
              next.output.value[|st.output.value|..]
              == if parsed.None? then ""
                 else if parsed.value.0 == st.headers.value then parsed.value.1 + "\n"
                 else SkipMessage + basePath + "\n"
    ensures st.output.None? && parsed.Some? ==>
              Apply(st, parsed, basePath)
              == State(Some(parsed.value.0), Some(parsed.value.0 + "\n" + parsed.value.1 + "\n"))
  {
    var next := Apply(st, parsed, basePath);
    if parsed.Some? && st.output.Some? {
      var o := st.output.value;
      var h := st.headers.value;
      assert next.output.value[..|o|] == o;
      assert next.output.value[..|h| + 1] == o[..|h| + 1];
    } else if parsed.Some? {
      var h := parsed.value.0;
      assert next.output.value == h + "\n" + parsed.value.1 + "\n";
      assert next.output.value[..|h| + 1] == h + "\n";
    }
  }

  /** The state after `process` has run on each folder in turn. */
  function Run(st: State, selectedDir: string, basePaths: seq<string>, read: string -> Option<string>): (r: State)
    requires Consistent(st)
    ensures Consistent(r)
    ensures st.headers.Some? ==> r.headers == st.headers
  {
    if |basePaths| == 0 then st
    else
      var init := basePaths[..|basePaths| - 1];
      var before := Run(st, selectedDir, init, read);
      StepAppends(before, Parse(basePaths[|basePaths| - 1], selectedDir, read(basePaths[|basePaths| - 1])),
                  basePaths[|basePaths| - 1]);
      Step(before, selectedDir, basePaths[|basePaths| - 1], read(basePaths[|basePaths| - 1]))
  }

  /** The CSV header row lists the fixed titles followed by every key, when no key holds a comma. */
  lemma HeadingsListKeys(keys: seq<string>)
    requires |keys| >= 1
    requires forall k :: 0 <= k < |keys| ==> ',' !in keys[k]
    ensures Text.Fields(Headings(keys), ',') == TitleFields + keys
  {
    Text.JoinConcat(TitleFields, keys, ",");
    assert forall k :: 0 <= k < |TitleFields| ==> ',' !in TitleFields[k];
    Text.FieldsOfJoin(TitleFields + keys, ',');
  }

  /**
   * A count line of the quantification, as read from a file written with CR
   * LF line ends, collates to its key and its exact count; without the CR the
   * dropped last character is the count's last digit.
   */
  lemma CountCollates(tissue: string, n: nat, total: nat)
    requires '=' !in tissue
    ensures var line := Quantify.CountLines(tissue, n, total)[0];
            var digits := Text.IntToString(n);
            && Key(line + "\r") == Some("count_" + tissue + "_active")
            && Value(line + "\r") == Some(digits)
            && Value(line) == Some(digits[..|digits| - 1])
  {
    var digits := Text.IntToString(n);
    var key := "count_" + tissue + "_active";
    CountLineParts(tissue, n, total);
    PairLine(key, digits);
    PairLine(key, digits + "\r");
    assert (digits + "\r")[..|digits|] == digits;
  }

  /** A count line, with and without a trailing CR, is its key, '=' and a value free of '='. */
  lemma CountLineParts(tissue: string, n: nat, total: nat)
    requires '=' !in tissue
    ensures var line := Quantify.CountLines(tissue, n, total)[0];
            var key := "count_" + tissue + "_active";
            var digits := Text.IntToString(n);
            && '=' !in key && '=' !in digits && '=' !in digits + "\r" && |digits| > 0
            && line == key + ['='] + digits
            && line + "\r" == key + ['='] + (digits + "\r")
  {
    var digits := Text.IntToString(n);
    var key := "count_" + tissue + "_active";
    var withCR := digits + "\r";
    CountLineShape(tissue, n, total);
    CountKeyHasNoEquals(tissue);
    DigitsHaveNoEquals(n);
    assert '=' !in withCR by {
      assert forall k :: 0 <= k < |withCR| ==> withCR[k] == if k < |digits| then digits[k] else '\r';
    }
    assert (key + ['='] + digits) + "\r" == key + ['='] + withCR;
  }

  /** A line of a key, '=' and a non-empty value splits back into that key and value. */
  lemma PairLine(key: string, v: string)
    requires '=' !in key && '=' !in v && |v| > 0
    ensures Key(key + ['='] + v) == Some(key)
    ensures Value(key + ['='] + v) == Some(v[..|v| - 1])
    ensures TrimmedValue(key + ['='] + v) == Some(if v[|v| - 1] == '\r' then v[..|v| - 1] else v)
  {
    Text.SplitPair(key, '=', v);
  }

  /**
   * The value as the dropped character evidently intends it: the second
   * '='-field without its trailing CR when it has one, and whole otherwise.
   */
  function TrimmedValue(line: string): Option<string>
  {
    var f := Text.Split(line, '=');
    if |f| < 2 then None
    else if |f[1]| > 0 && f[1][|f[1]| - 1] == '\r' then Some(f[1][..|f[1]| - 1])
    else Some(f[1])
  }

  /** With the trailing CR trimmed only when present, a count line collates exactly under either line end. */
  lemma CountCollatesTrimmed(tissue: string, n: nat, total: nat)
    requires '=' !in tissue
    ensures var line := Quantify.CountLines(tissue, n, total)[0];
            && TrimmedValue(line + "\r") == Some(Text.IntToString(n))
            && TrimmedValue(line) == Some(Text.IntToString(n))
  {
    var digits := Text.IntToString(n);
    var key := "count_" + tissue + "_active";
    CountLineParts(tissue, n, total);
    PairLine(key, digits);
    PairLine(key, digits + "\r");
    Text.CountRoundTrip(n);
    assert (digits + "\r")[..|digits|] == digits;
    assert '0' <= digits[|digits| - 1] <= '9';
  }

  /** The active count line is its key, '=' and the rendered count. */
  lemma CountLineShape(tissue: string, n: nat, total: nat)
    ensures Quantify.CountLines(tissue, n, total)[0] == ("count_" + tissue + "_active") + ['='] + Text.IntToString(n)
  {
    assert "_active=" == "_active" + ['='];
  }

  lemma CountKeyHasNoEquals(tissue: string)
    requires '=' !in tissue
    ensures '=' !in "count_" + tissue + "_active"
  {
    var key := "count_" + tissue + "_active";
    forall k | 0 <= k < |key| ensures key[k] != '=' {
      if 6 <= k < 6 + |tissue| {
        assert key[k] == tissue[k - 6];
      }
    }
  }

  lemma DigitsHaveNoEquals(n: nat)
    ensures '=' !in Text.IntToString(n)
  {
    var digits := Text.IntToString(n);
    Text.CountRoundTrip(n);
    forall k | 0 <= k < |digits| ensures digits[k] != '=' {
      assert '0' <= digits[k] <= '9';
    }
  }

  /** The accumulator of the "Collate Data" command. */
  class Collator {
    const selectedDir: string
    var headers: Option<string>
    var output: Option<string>

    ghost predicate Valid()
      reads this
    {
      Consistent(State(headers, output))
    }

    constructor(selectedDir: string)
      ensures this.selectedDir == selectedDir
      ensures headers.None? && output.None? && Valid()
    {
      this.selectedDir := selectedDir;
      headers := None;
      output := None;
    }

    /**
     * `process(basePath)` given the outcome of reading its "data.txt": every
     * value is computed first, so a folder that throws changes nothing.
     */
    method Process(basePath: string, content: Option<string>)
      requires Valid()
      modifies this
      ensures Valid()
      ensures State(headers, output) == Step(old(State(headers, output)), selectedDir, basePath, content)
    {
      var parsed := Parse(basePath, selectedDir, content);
      if parsed.None? {
        return;
      }
      var (headings, data) := parsed.value;
      if output.None? {
        output := Some(headings + "\n");
        headers := Some(headings);
      }
      if headers.value == headings {
        output := Some(output.value + data + "\n");
      } else {
        output := Some(output.value + SkipMessage + basePath + "\n");
      }
      StepAppends(old(State(headers, output)), parsed, basePath);
    }

    /**
     * `runAll`: processes every folder in order, then writes the output once;
     * `written` is `None` when no folder produced output (the write throws).
     */
    method RunAll(basePaths: seq<string>, read: string -> Option<string>) returns (written: Option<string>)
      requires Valid()
      modifies this
      ensures Valid()
      ensures State(headers, output) == Run(old(State(headers, output)), selectedDir, basePaths, read)
      ensures written == output
    {
      ghost var start := State(headers, output);
      for i := 0 to |basePaths|
        invariant Valid()
        invariant State(headers, output) == Run(start, selectedDir, basePaths[..i], read)
      {
        assert basePaths[..i + 1][..i] == basePaths[..i];
        Process(basePaths[i], read(basePaths[i]));
      }
      assert basePaths[..|basePaths|] == basePaths;
      written := output;
    }
  }
}
