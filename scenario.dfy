/**
 * `find_anomalous_errors` on a whole log: two failed-connection lines that
 * differ in timestamp and address, and one informational line.  The
 * keyword filter drops the informational line, `normalize_log_line` gives
 * both failed lines one key, which keeps `<TIMESTAMP>` in it, and
 * `most_common(10)` reports that key once with count 2.
 */
module Scenario {
  import opened Text
  import opened Normalizer
  import opened Ranking
  import opened Aggregator
  import opened Examples

  /** The key both failed-connection lines are counted under. */
  const FailedKey: string := "<TIMESTAMP> ERROR Connection failed to <IP>"

  /** The three lines of the log, each with its terminator where it has one. */
  const ThreeLines: seq<string> := [FirstLine, SecondLine, ServiceStarted]

  /** A line whose keyword `ERROR` follows a 19-character timestamp is an error line. */
  lemma FailedLineIsError(ts: string, rest: string)
    requires |ts| == 19
    ensures IsErrorLine(ts + Failed + rest)
  {
    var line := ts + Failed + rest;
    var u := Upper(line);
    assert line[20] == 'E' && line[21] == 'R' && line[22] == 'R' && line[23] == 'O' && line[24] == 'R';
    assert u[20..25] == Keywords[0];
    assert Keywords[0] <= u[20..];
  }

  /** Two error lines with one key and a line without a keyword give that key twice. */
  lemma KeysOfThree(x: string, y: string, z: string, normalize: string -> string, key: string)
    requires IsErrorLine(x) && IsErrorLine(y) && !IsErrorLine(z)
    requires normalize(x) == key && normalize(y) == key
    ensures ErrorKeys([x, y, z], normalize) == [key, key]
  {
    assert [x, y, z][..2] == [x, y];
    assert [x, y][..1] == [x];
    assert [x][..0] == [];
    assert ErrorKeys([x], normalize) == [key];
    assert ErrorKeys([x, y], normalize) == [key, key];
  }

  /** A key counted twice makes one item with count 2. */
  lemma ItemsOfTwice(key: string)
    ensures ItemsOf([key, key]) == [Entry(key, 2)]
  {
    assert [key, key][..1] == [key];
    assert [key][..0] == [];
    assert Tally([key]) == map[key := 1];
    assert Tally([key, key]) == map[key := 2];
    assert FirstSeen([key]) == [key];
    assert FirstSeen([key, key]) == [key];
  }

  /** The keyword filter keeps both failed-connection lines and drops the informational one. */
  lemma ThreeLinesFiltered()
    ensures IsErrorLine(FirstLine) && IsErrorLine(SecondLine) && !IsErrorLine(ServiceStarted)
  {
    FailedLineIsError("2024-01-15T10:23:45", Quad("192", "168", "1", "5") + "\n");
    FailedLineIsError("2024-01-16T11:00:02", Quad("10", "0", "0", "9") + "\n");
    assert FirstLine == "2024-01-15T10:23:45" + Failed + (Quad("192", "168", "1", "5") + "\n");
    assert SecondLine == "2024-01-16T11:00:02" + Failed + (Quad("10", "0", "0", "9") + "\n");
    ServiceStartedIsNoError();
  }

  /** The error keys of the log: the one shared key, once per failed line. */
  lemma ThreeLinesKeys()
    ensures ErrorKeys(ThreeLines, Normalize) == [FailedKey, FailedKey]
  {
    ThreeLinesFiltered();
    FirstFailedLine();
    SecondFailedLine();
    KeysOfThree(FirstLine, SecondLine, ServiceStarted, Normalize, FailedKey);
  }

  /** `most_common(10)` of the log's counter: one pattern, counted twice. */
  lemma ThreeLinesTop()
    ensures MostCommon(ItemsOf(ErrorKeys(ThreeLines, Normalize)), 10) == [Entry(FailedKey, 2)]
  {
    ThreeLinesKeys();
    ItemsOfTwice(FailedKey);
    assert SortByCount([Entry(FailedKey, 2)]) == [Entry(FailedKey, 2)];
  }

  /** The whole function on the log with the default `top_n`: the single pattern and its count are reported. */
  method ThreeLinesReport() returns (report: Report)
    ensures report == Top([Entry(FailedKey, 2)])
  {
    ThreeLinesTop();
    ThreeLinesFiltered();
    assert IsErrorLine(ThreeLines[0]);
    report := FindAnomalousErrors(Lines(ThreeLines), 10);
  }
}
