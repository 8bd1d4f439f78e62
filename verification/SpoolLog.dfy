/** The spool's log file of one run: records with a 4-byte big-endian length in front.
    Reading a log that a crash cut anywhere yields the whole records before the cut. */
module SpoolLog {
  import opened BigEndian

  type Record = seq<Byte>

  const MAX_RECORD: nat := 0x100_0000

  /** How reading ends: normally, on a length that cannot be, or on an end of file
      between a length and its record. */
  datatype Status = Fine | BadLength | EndInRecord

  datatype Contents = Contents(records: seq<Record>, status: Status)

  function EncodeRecord(r: Record): seq<Byte> {
    Encode(|r|, 4) + r
  }

  function Log(rs: seq<Record>): seq<Byte> {
    if rs == [] then [] else EncodeRecord(rs[0]) + Log(rs[1..])
  }

  /** What is read from the bytes of a file. */
  function Read(file: seq<Byte>): Contents {
    if |file| < 4 then Contents([], Fine)
    else
      var n := Decode(file[..4]);
      if n == 0 || n > MAX_RECORD then Contents([], BadLength)
      else if |file| == 4 then Contents([], EndInRecord)
      else if |file| - 4 < n then Contents([], Fine)
      else
        var rest := Read(file[4 + n..]);
        Contents([file[4..4 + n]] + rest.records, rest.status)
  }

  /** readSpoolFile: a loop over the file position. */
  method ReadSpoolFile(file: seq<Byte>) returns (records: seq<Record>, status: Status)
    ensures Contents(records, status) == Read(file)
  {
    records := [];
    var pos := 0;
    while true
      invariant pos <= |file|
      invariant Read(file) == Contents(records + Read(file[pos..]).records, Read(file[pos..]).status)
      decreases |file| - pos
    {
      var left := file[pos..];
      if |left| < 4 {
        return records, Fine;
      }
      var n := Decode(left[..4]);
      if n == 0 || n > MAX_RECORD {
        return records, BadLength;
      }
      if |left| == 4 {
        // reading a record's bytes finds none at all: a plain end of file
        return records, EndInRecord;
      }
      if |left| - 4 < n {
        return records, Fine;
      }
      assert left[4 + n..] == file[pos + 4 + n..];
      assert records + ([left[4..4 + n]] + Read(left[4 + n..]).records) ==
             records + [left[4..4 + n]] + Read(left[4 + n..]).records;
      records := records + [left[4..4 + n]];
      pos := pos + 4 + n;
    }
  }

  predicate Writable(rs: seq<Record>) {
    forall r <- rs :: 0 < |r| <= MAX_RECORD
  }

  /** How many whole records the first `k` bytes of the log hold. */
  function WholeRecords(rs: seq<Record>, k: nat): (j: nat)
    ensures j <= |rs|
  {
    if rs == [] || k < 4 + |rs[0]| then 0 else 1 + WholeRecords(rs[1..], k - 4 - |rs[0]|)
  }

  /** Whether byte `k` of the log lies between a record's length and its first byte. */
  predicate AfterLength(rs: seq<Record>, k: nat) {
    rs != [] && (k == 4 || (k >= 4 + |rs[0]| && AfterLength(rs[1..], k - 4 - |rs[0]|)))
  }

  lemma LengthOfRecord(r: Record, tail: seq<Byte>)
    requires 0 < |r| <= MAX_RECORD
    ensures var file := EncodeRecord(r) + tail;
            Decode(file[..4]) == |r| && file[4..4 + |r|] == r && file[4 + |r|..] == tail
  {
    assert Power(4) == 0x1_0000_0000;
    var file := EncodeRecord(r) + tail;
    assert file[..4] == Encode(|r|, 4);
    DecodeEncode(|r|, 4);
  }

  /** A whole record in front is read first. */
  lemma ReadFirst(r: Record, tail: seq<Byte>)
    requires 0 < |r| <= MAX_RECORD
    ensures Read(EncodeRecord(r) + tail) == Contents([r] + Read(tail).records, Read(tail).status)
  {
    LengthOfRecord(r, tail);
  }

  /** A record cut short is not read. */
  lemma ReadPart(r: Record, k: nat)
    requires 0 < |r| <= MAX_RECORD && k < 4 + |r|
    ensures Read(EncodeRecord(r)[..k]) == Contents([], if k == 4 then EndInRecord else Fine)
  {
    LengthOfRecord(r, []);
    var file := EncodeRecord(r);
    assert file + [] == file;
    if k >= 4 {
      assert file[..k][..4] == file[..4];
    }
  }

  lemma CutLog(rs: seq<Record>, k: nat)
    requires rs != [] && k <= |Log(rs)|
    ensures var n := |EncodeRecord(rs[0])|;
            if k < n then Log(rs)[..k] == EncodeRecord(rs[0])[..k]
            else k - n <= |Log(rs[1..])| && Log(rs)[..k] == EncodeRecord(rs[0]) + Log(rs[1..])[..k - n]
  {
  }

  /** What reading the log cut at byte `k` should give. */
  function ContentsAt(rs: seq<Record>, k: nat): Contents {
    Contents(rs[..WholeRecords(rs, k)], if AfterLength(rs, k) then EndInRecord else Fine)
  }

  lemma ContentsAtStep(rs: seq<Record>, k: nat)
    requires rs != []
    ensures var n := 4 + |rs[0]|;
            if k < n then |rs[0]| > 0 ==> ContentsAt(rs, k) == Contents([], if k == 4 then EndInRecord else Fine)
            else var c := ContentsAt(rs[1..], k - n);
                 |rs[0]| > 0 ==> ContentsAt(rs, k) == Contents([rs[0]] + c.records, c.status)
  {
    if k >= 4 + |rs[0]| {
      var j := WholeRecords(rs[1..], k - 4 - |rs[0]|);
      assert [rs[0]] + rs[1..][..j] == rs[..1 + j];
    }
  }

  /** A log cut at any byte is read to exactly its whole records, and reading ends
      normally unless the cut falls right behind a length. */
  lemma {:induction false} ReadCut(rs: seq<Record>, k: nat)
    requires Writable(rs) && k <= |Log(rs)|
    ensures Read(Log(rs)[..k]) == ContentsAt(rs, k)
  {
    if rs != [] {
      assert rs[0] in rs && Writable(rs[1..]);
      CutLog(rs, k);
      ContentsAtStep(rs, k);
      var n := 4 + |rs[0]|;
      if k < n {
        ReadPart(rs[0], k);
      } else {
        ReadCut(rs[1..], k - n);
        ReadFirst(rs[0], Log(rs[1..])[..k - n]);
      }
    }
  }

  /** An uncut log is read back in full. */
  lemma ReadLog(rs: seq<Record>)
    requires Writable(rs)
    ensures Read(Log(rs)) == Contents(rs, Fine)
  {
    ReadCut(rs, |Log(rs)|);
    WholeLog(rs);
    assert Log(rs)[..|Log(rs)|] == Log(rs) && rs[..|rs|] == rs;
  }

  lemma {:induction false} WholeLog(rs: seq<Record>)
    requires Writable(rs)
    ensures WholeRecords(rs, |Log(rs)|) == |rs| && !AfterLength(rs, |Log(rs)|)
  {
    if rs != [] {
      assert rs[0] in rs;
      assert Writable(rs[1..]);
      WholeLog(rs[1..]);
    }
  }

  /** Appending a record to a log is appending its bytes. */
  lemma {:induction false} AppendLog(rs: seq<Record>, r: Record)
    ensures Log(rs + [r]) == Log(rs) + EncodeRecord(r)
  {
    if rs == [] {
      assert [r][1..] == [];
    } else {
      AppendLog(rs[1..], r);
      assert (rs + [r])[1..] == rs[1..] + [r];
    }
  }

  // ---- the format and the cut, without the functions above ----

  /** The bytes of a record: its length in four bytes, the most significant first, and itself. */
  lemma RecordBytes(r: Record)
    ensures EncodeRecord(r) ==
            [|r| / 0x100_0000 % 256, |r| / 0x1_0000 % 256, |r| / 0x100 % 256, |r| % 256] + r
  {
    FourBytes(|r|);
  }

  /** Reading, length by length: less than four bytes end it normally; a length of zero or more
      than 16 MiB ends it with an error; so does an end of file right behind the length; a record
      that is not there in full is left out. */
  lemma ReadExactly(file: seq<Byte>)
    ensures |file| < 4 ==> Read(file) == Contents([], Fine)
    ensures |file| >= 4 ==>
            var n := Quad(file[0], file[1], file[2], file[3]);
            && (n == 0 || n > 0x100_0000 ==> Read(file) == Contents([], BadLength))
            && (0 < n <= 0x100_0000 && |file| == 4 ==> Read(file) == Contents([], EndInRecord))
            && (0 < n <= 0x100_0000 && 4 < |file| < 4 + n ==> Read(file) == Contents([], Fine))
            && (0 < n <= 0x100_0000 && |file| >= 4 + n ==>
                 var rest := Read(file[4 + n..]); Read(file) == Contents([file[4..4 + n]] + rest.records, rest.status))
  {
    if |file| >= 4 { DecodeFour(file[..4]); }
  }

  lemma LogOfFront(rs: seq<Record>, j: nat)
    requires 0 < j <= |rs|
    ensures |Log(rs[..j])| == 4 + |rs[0]| + |Log(rs[1..][..j - 1])|
  {
    assert rs[..j][1..] == rs[1..][..j - 1];
  }

  /** The whole records in the first k bytes are as many as fit. */
  lemma {:induction false} WholeRecordsExactly(rs: seq<Record>, k: nat)
    ensures var j := WholeRecords(rs, k);
            |Log(rs[..j])| <= k && (j < |rs| ==> k < |Log(rs[..j + 1])|)
  {
    var j := WholeRecords(rs, k);
    if rs != [] {
      LogOfFront(rs, 1);
      if j > 0 {
        WholeRecordsExactly(rs[1..], k - 4 - |rs[0]|);
        LogOfFront(rs, j);
        if j < |rs| { LogOfFront(rs, j + 1); }
      }
    }
  }

  /** The cuts that end reading with an error are those four bytes into a record. */
  lemma {:induction false} AfterLengthExactly(rs: seq<Record>, k: nat)
    requires Writable(rs)
    ensures AfterLength(rs, k) <==> exists j :: 0 <= j < |rs| && k == |Log(rs[..j])| + 4
  {
    if rs != [] {
      assert Log(rs[..0]) == [] && rs[0] in rs && Writable(rs[1..]);
      if k >= 4 + |rs[0]| {
        AfterLengthExactly(rs[1..], k - 4 - |rs[0]|);
        if AfterLength(rs[1..], k - 4 - |rs[0]|) {
          var j :| 0 <= j < |rs[1..]| && k - 4 - |rs[0]| == |Log(rs[1..][..j])| + 4;
          LogOfFront(rs, j + 1);
        }
      }
      if j :| 0 < j < |rs| && k == |Log(rs[..j])| + 4 {
        LogOfFront(rs, j);
        assert k - 4 - |rs[0]| == |Log(rs[1..][..j - 1])| + 4;
      }
    }
  }
}
