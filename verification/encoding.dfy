/**
 * `detectEncoding`: a file's encoding as the exports report it. A byte-order mark
 * decides first; otherwise at most the first 1024 bytes are scanned for a byte
 * above 127, and only a file with one is handed to the UTF-8 decoder.
 *
 * The read is an input: `None` when it fails. Whether the decoder accepts the
 * bytes is an input too (`decodes`).
 */
module Encoding {
  import opened Wrappers

  /** How many leading bytes the scan looks at, at most. */
  const ScanLimit: nat := 1024

  const Utf8Bom: string := "UTF-8 (with BOM)"
  const Utf16: string := "UTF-16"
  const Ascii: string := "ASCII"
  const Utf8: string := "UTF-8"
  const BinaryUnknown: string := "Binary/Unknown"
  const Unknown: string := "Unknown"

  predicate StartsWithUtf8Bom(b: seq<bv8>) {
    |b| >= 3 && b[0] == 0xEF && b[1] == 0xBB && b[2] == 0xBF
  }

  /** Either byte order of the UTF-16 mark. */
  predicate StartsWithUtf16Bom(b: seq<bv8>) {
    |b| >= 2 && ((b[0] == 0xFF && b[1] == 0xFE) || (b[0] == 0xFE && b[1] == 0xFF))
  }

  /** `Math.min(buffer.length, 1024)`. */
  function ScanLength(b: seq<bv8>): (n: nat)
    ensures n <= |b| && n <= ScanLimit
    ensures n == |b| || n == ScanLimit
  {
    if |b| < ScanLimit then |b| else ScanLimit
  }

  predicate AllAscii(s: seq<bv8>) {
    forall i :: 0 <= i < |s| ==> s[i] <= 127
  }

  /** The bytes the scan looks at. */
  function Scanned(b: seq<bv8>): seq<bv8> {
    b[..ScanLength(b)]
  }

  /** The classification, by priority: read failure, UTF-8 mark, UTF-16 mark, ASCII scan, decoder. */
  function Classify(file: Option<seq<bv8>>, decodes: seq<bv8> -> bool): (r: string)
    ensures r in {Utf8Bom, Utf16, Ascii, Utf8, BinaryUnknown, Unknown}
    ensures r == Unknown <==> file.None?
  {
    match file
    case None => Unknown
    case Some(b) =>
      if StartsWithUtf8Bom(b) then Utf8Bom
      else if StartsWithUtf16Bom(b) then Utf16
      else if AllAscii(Scanned(b)) then Ascii
      else if decodes(b) then Utf8
      else BinaryUnknown
  }

  /** `detectEncoding`: the marks, then the scan for a byte above 127 that stops at the first one. */
  method DetectEncoding(file: Option<seq<bv8>>, decodes: seq<bv8> -> bool) returns (encoding: string)
    ensures encoding == Classify(file, decodes)
  {
    if file.None? {
      return Unknown;
    }
    var buffer := file.value;
    if |buffer| >= 3 && buffer[0] == 0xEF && buffer[1] == 0xBB && buffer[2] == 0xBF {
      return Utf8Bom;
    }
    if |buffer| >= 2 {
      if (buffer[0] == 0xFF && buffer[1] == 0xFE) || (buffer[0] == 0xFE && buffer[1] == 0xFF) {
        return Utf16;
      }
    }
    var hasNonAscii := false;
    var n := ScanLength(buffer);
    var i := 0;
    while i < n
      invariant 0 <= i <= n
      invariant !hasNonAscii
      invariant AllAscii(buffer[..i])
    {
      if buffer[i] > 127 {
        hasNonAscii := true;
        break;
      }
      i := i + 1;
    }
    assert hasNonAscii ==> buffer[i] > 127 && i < n;
    assert !hasNonAscii ==> buffer[..i] == Scanned(buffer);
    if !hasNonAscii {
      return Ascii;
    }
    assert Scanned(buffer)[i] == buffer[i];
    if decodes(buffer) {
      encoding := Utf8;
    } else {
      encoding := BinaryUnknown;
    }
  }

  // ---------------------------------------------------------------- properties

  /** An empty file is ASCII. */
  lemma EmptyIsAscii(decodes: seq<bv8> -> bool)
    ensures Classify(Some([]), decodes) == Ascii
  {
  }

  /** The UTF-8 mark wins over everything after it, and over the UTF-16 test. */
  lemma Utf8BomFirst(rest: seq<bv8>, decodes: seq<bv8> -> bool)
    ensures Classify(Some([0xEF, 0xBB, 0xBF] + rest), decodes) == Utf8Bom
  {
  }

  /** Either UTF-16 mark gives UTF-16, whatever follows. */
  lemma Utf16Marks(rest: seq<bv8>, decodes: seq<bv8> -> bool)
    ensures Classify(Some([0xFF, 0xFE] + rest), decodes) == Utf16
    ensures Classify(Some([0xFE, 0xFF] + rest), decodes) == Utf16
  {
  }

  /** A file is ASCII exactly when it has no mark and none of its first 1024 bytes is above 127. */
  lemma AsciiExactly(b: seq<bv8>, decodes: seq<bv8> -> bool)
    ensures Classify(Some(b), decodes) == Ascii <==>
      !StartsWithUtf8Bom(b) && !StartsWithUtf16Bom(b) && forall i :: 0 <= i < |b| && i < ScanLimit ==> b[i] <= 127
  {
    var s := Scanned(b);
    if forall i :: 0 <= i < |b| && i < ScanLimit ==> b[i] <= 127 {
      forall i | 0 <= i < |s| ensures s[i] <= 127 {
        assert s[i] == b[i];
      }
    }
    if AllAscii(s) {
      forall i | 0 <= i < |b| && i < ScanLimit ensures b[i] <= 127 {
        assert b[i] == s[i];
      }
    }
  }

  /** The decoder is consulted only for a file with a non-ASCII byte in its first 1024 bytes. */
  lemma DecoderOnlyAfterScan(b: seq<bv8>, decodes: seq<bv8> -> bool)
    requires Classify(Some(b), decodes) in {Utf8, BinaryUnknown}
    ensures exists i :: 0 <= i < |b| && i < ScanLimit && b[i] > 127
    ensures Classify(Some(b), decodes) == Utf8 <==> decodes(b)
  {
    var s := Scanned(b);
    var i :| 0 <= i < |s| && s[i] > 127;
    assert b[i] == s[i];
  }

  /** Bytes after the first 1024 never change the verdict of the scan: an ASCII head makes the file ASCII. */
  lemma TailIgnored(head: seq<bv8>, tail: seq<bv8>, decodes: seq<bv8> -> bool)
    requires |head| == ScanLimit
    ensures Classify(Some(head + tail), decodes) == Ascii <==> Classify(Some(head), decodes) == Ascii
  {
    var b := head + tail;
    assert Scanned(b) == head;
    assert Scanned(head) == head;
    assert b[..3] == head[..3];
  }
}
