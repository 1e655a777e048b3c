/**
 * The texts the app produces from a 32-bit value: the serial/log record
 * formatted by `process_ir` with `snprintf(buf, MAX_BUF, "RNG:%lu\n", rng)`,
 * and the `%06lu` readout that `draw` formats into a 32-byte buffer.
 */
module Emission {
  import opened Word32
  import opened Decimal

  datatype Option<T> = None | Some(value: T)

  /** Size of the record buffer in process_ir. */
  const MAX_BUF: nat := 64

  /** Size of the readout buffer in draw, and the field width of `%06lu`. */
  const READOUT_BUF: nat := 32
  const READOUT_WIDTH: nat := 6

  /** The full text of `"RNG:%lu\n"` for rng, before any buffer limit. */
  function RecordText(rng: u32): string {
    "RNG:" + DecimalString(rng) + "\n"
  }

  /** What snprintf leaves in the 64-byte buffer, and the length passed on to the serial port and the log. */
  function FormatRecord(rng: u32): (r: Formatted)
    ensures r.buf == RecordText(rng) && r.ret == |r.buf|
    ensures 6 <= r.ret <= 15 && r.ret < MAX_BUF
  {
    U32DecimalLength(rng);
    Snprintf(MAX_BUF, RecordText(rng))
  }

  /** Reads a record back: the partner that shows the format loses nothing. */
  function ParseRecord(s: string): (r: Option<u32>)
  {
    if 6 <= |s| && s[..4] == "RNG:" && s[|s| - 1] == '\n'
       && Canonical(s[4..|s| - 1]) && DecimalValue(s[4..|s| - 1]) < MODULUS
    then Some(DecimalValue(s[4..|s| - 1]))
    else None
  }

  lemma RecordParses(rng: u32)
    ensures ParseRecord(RecordText(rng)) == Some(rng)
  {
    var t := RecordText(rng);
    assert t[..4] == "RNG:" && t[4..|t| - 1] == DecimalString(rng);
    DecimalRoundTrip(rng);
  }

  lemma ParsedIsRecord(s: string, rng: u32)
    requires ParseRecord(s) == Some(rng)
    ensures s == RecordText(rng)
  {
    var body := s[4..|s| - 1];
    CanonicalRoundTrip(body);
    assert s == s[..4] + body + [s[|s| - 1]];
  }

  /** A string parses to rng exactly when it is the record of rng. */
  lemma RecordParseExact(s: string, rng: u32)
    ensures ParseRecord(s) == Some(rng) <==> s == RecordText(rng)
  {
    if ParseRecord(s) == Some(rng) {
      ParsedIsRecord(s, rng);
    }
    if s == RecordText(rng) {
      RecordParses(rng);
    }
  }

  /** The `%06lu` text of v, before the buffer limit, denotes v in 6 to 10 digits. */
  lemma PaddedDecimal(v: u32)
    ensures var padded := ZeroPad(DecimalString(v), READOUT_WIDTH);
            READOUT_WIDTH <= |padded| <= 10 && AllDigits(padded) && DecimalValue(padded) == v
  {
    var digits := DecimalString(v);
    var padded := ZeroPad(digits, READOUT_WIDTH);
    U32DecimalLength(v);
    DecimalRoundTrip(v);
    LeadingZeros(padded[..|padded| - |digits|], digits);
    assert padded == padded[..|padded| - |digits|] + digits;
  }

  /** The readout of the normal view: snprintf(buf, 32, "%06lu", v). */
  function Readout(v: u32): (r: string)
    ensures r == ZeroPad(DecimalString(v), READOUT_WIDTH)
    ensures READOUT_WIDTH <= |r| <= 10 && |r| < READOUT_BUF
    ensures AllDigits(r) && DecimalValue(r) == v
  {
    PaddedDecimal(v);
    Snprintf(READOUT_BUF, ZeroPad(DecimalString(v), READOUT_WIDTH)).buf
  }

  /** The record of 12345 is the ten characters "RNG:12345\n". */
  lemma RecordOf12345()
    ensures RecordText(12345) == "RNG:12345\n"
  {
  }

  /** Before any IR signal, the readout shows six zeros. */
  lemma ReadoutOfZero()
    ensures Readout(0) == "000000"
  {
  }
}
