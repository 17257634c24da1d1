/** The line parsing of `load_env_file`: the API key is the text after the
    first "=" of the first line that starts with "API_KEY=". */
module EnvFile {
  import opened PyText
  import opened Optional

  const KeyPrefix: string := "API_KEY="

  /** `line.split('=', 1)[1]`: what follows the first "=". The caller only
      splits lines that contain one. */
  function AfterFirstEquals(line: string): (r: string)
    requires Contains(line, "=")
    ensures exists i :: IsFirstOccurrence(line, "=", i) && r == line[i + 1..]
  {
    line[Find(line, "=") + 1..]
  }

  /** For a line with the key prefix, the split lands right after the prefix,
      since "API_KEY" has no "=" in it. */
  lemma SplitAfterPrefix(line: string)
    requires StartsWith(line, KeyPrefix)
    ensures Contains(line, "=") && AfterFirstEquals(line) == line[|KeyPrefix|..]
  {
    assert line[..|KeyPrefix|] == KeyPrefix;
    forall j | 0 <= j < |KeyPrefix| - 1 ensures !OccursAt(line, "=", j) {
      assert line[j] == KeyPrefix[j];
    }
    assert OccursAt(line, "=", |KeyPrefix| - 1);
    FindIsFirstOccurrence(line, "=", |KeyPrefix| - 1);
  }

  /** `k` is the first line that starts with the key prefix. */
  ghost predicate FirstKeyLine(lines: seq<string>, k: int) {
    0 <= k < |lines| && StartsWith(lines[k], KeyPrefix)
    && forall m :: 0 <= m < k ==> !StartsWith(lines[m], KeyPrefix)
  }

  /** `load_env_file`, with the file given as its lines, or None when it does
      not exist. The key is the stripped remainder of the first key line. */
  method LoadEnvFile(file: Option<seq<string>>) returns (key: Option<string>)
    ensures file.None? ==> key.None?
    ensures file.Some? && key.None? ==>
      forall m :: 0 <= m < |file.value| ==> !StartsWith(file.value[m], KeyPrefix)
    ensures key.Some? ==> (file.Some? && exists k :: FirstKeyLine(file.value, k)
                                                && key.value == Strip(file.value[k][|KeyPrefix|..]))
  {
    if file.None? {
      return None;
    }
    var lines := file.value;
    var i := 0;
    while i < |lines|
      invariant 0 <= i <= |lines|
      invariant forall m :: 0 <= m < i ==> !StartsWith(lines[m], KeyPrefix)
    {
      var line := lines[i];
      if StartsWith(line, KeyPrefix) {
        SplitAfterPrefix(line);
        assert FirstKeyLine(lines, i);
        return Some(Strip(AfterFirstEquals(line)));
      }
      i := i + 1;
    }
    return None;
  }
}
