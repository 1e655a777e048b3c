/**
 * The contents of the log file after a series of records has been written
 * to it. process_ir opens the file with FSOM_OPEN_ALWAYS, which opens or
 * creates it with the write position at offset 0, and writes the record
 * there: every record overwrites the head of the file. The evident intent,
 * a log that grows by one record per emission, is the append mode.
 */
module LogFile {
  import opened Word32
  import opened Decimal
  import opened Emission

  /** One open-write-close with the position at 0: rec replaces the first |rec| characters. */
  function OverwriteHead(file: string, rec: string): (r: string)
    ensures |r| == if |rec| < |file| then |file| else |rec|
    ensures rec <= r
    ensures |rec| < |file| ==> r[|rec|..] == file[|rec|..]
  {
    rec + (if |rec| < |file| then file[|rec|..] else [])
  }

  /** The file after the writes, each made as process_ir makes it. */
  function ReplayAsWritten(file: string, writes: seq<string>): string
    decreases |writes|
  {
    if writes == [] then file else ReplayAsWritten(OverwriteHead(file, writes[0]), writes[1..])
  }

  /** Two writes, each at offset 0. */
  lemma ReplayTwo(file: string, x: string, y: string)
    ensures ReplayAsWritten(file, [x, y]) == OverwriteHead(OverwriteHead(file, x), y)
  {
    var w: seq<string> := [x, y];
    assert w[0] == x && w[1..] == [y] && w[1..][0] == y && w[1..][1..] == [];
    assert ReplayAsWritten(file, w) == ReplayAsWritten(OverwriteHead(file, x), [y]);
    assert ReplayAsWritten(OverwriteHead(file, x), [y])
        == ReplayAsWritten(OverwriteHead(OverwriteHead(file, x), y), []);
  }

  /** A record is "RNG:", the digits, then a newline: the characters before the newline are no newline. */
  lemma RecordNoEarlyNewline(a: u32, i: nat)
    requires 4 <= i < |RecordText(a)| - 1
    ensures RecordText(a)[i] != '\n'
  {
    var d := DecimalString(a);
    assert RecordText(a)[i] == d[i - 4];
  }

  /**
   * Whenever a record with fewer digits follows one with more, the file no
   * longer starts with the first record: its tail is left after the second.
   */
  lemma LaterRecordOverwritesEarlier(a: u32, b: u32)
    requires |DecimalString(b)| < |DecimalString(a)|
    ensures ReplayAsWritten("", [RecordText(a), RecordText(b)])
            == RecordText(b) + RecordText(a)[|RecordText(b)|..]
    ensures !(RecordText(a) <= ReplayAsWritten("", [RecordText(a), RecordText(b)]))
  {
    var ra, rb := RecordText(a), RecordText(b);
    ReplayTwo("", ra, rb);
    assert OverwriteHead("", ra) == ra;
    var file := OverwriteHead(ra, rb);
    var i := |rb| - 1;
    assert file[i] == rb[i] == '\n';
    RecordNoEarlyNewline(a, i);
  }

  /** Logging 12345 and then 7 leaves "RNG:7\n345\n". */
  lemma OverwriteOf12345Then7()
    ensures ReplayAsWritten("", ["RNG:12345\n", "RNG:7\n"]) == "RNG:7\n345\n"
    ensures !("RNG:12345\n" <= ReplayAsWritten("", ["RNG:12345\n", "RNG:7\n"]))
  {
    var once := OverwriteHead("", "RNG:12345\n");
    assert once == "RNG:12345\n";
    var twice := OverwriteHead(once, "RNG:7\n");
    assert twice == "RNG:7\n" + "345\n";
    var w: seq<string> := ["RNG:12345\n", "RNG:7\n"];
    assert w[1..][1..] == [];
    assert ReplayAsWritten("", w) == twice;
    assert twice[4] != "RNG:12345\n"[4];
  }

  /** One open-write-close in append mode (FSOM_OPEN_APPEND): rec goes after the end. */
  function AppendRecord(file: string, rec: string): (r: string)
    ensures file <= r && r[|file|..] == rec
  {
    file + rec
  }

  /** The file after the writes, each appended. */
  function Replay(file: string, writes: seq<string>): string
    decreases |writes|
  {
    if writes == [] then file else Replay(AppendRecord(file, writes[0]), writes[1..])
  }

  function Concat(writes: seq<string>): string
    decreases |writes|
  {
    if writes == [] then [] else writes[0] + Concat(writes[1..])
  }

  /** Appending keeps everything already logged, and the log is the records in emission order. */
  lemma {:induction false} ReplayKeepsLog(file: string, writes: seq<string>)
    ensures Replay(file, writes) == file + Concat(writes)
    ensures file <= Replay(file, writes)
    decreases |writes|
  {
    if writes != [] {
      ReplayKeepsLog(AppendRecord(file, writes[0]), writes[1..]);
      assert file + writes[0] + Concat(writes[1..]) == file + (writes[0] + Concat(writes[1..]));
    }
  }

  /** The same two records, appended, both survive intact and in order. */
  lemma AppendedRecordsSurvive()
    ensures Replay("", ["RNG:12345\n", "RNG:7\n"]) == "RNG:12345\nRNG:7\n"
  {
    var w: seq<string> := ["RNG:12345\n", "RNG:7\n"];
    ReplayKeepsLog("", w);
    assert w[1..][1..] == [];
    assert Concat(w) == "RNG:12345\n" + ("RNG:7\n" + []);
  }
}
