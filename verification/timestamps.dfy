/**
 * The `GMT+hh:mm` part of the timestamps the exports print. `getTimezoneOffset`
 * gives minutes to add to local time to reach UTC, so a zone ahead of UTC has a
 * negative offset. The clock, `toISOString` and the zone name are left out; the
 * offset is an input.
 */
module Timestamps {
  import opened Text

  /** `Math.floor(a / 60)`: with a positive divisor Dafny's division already floors. */
  function FloorDiv60(a: int): int {
    a / 60
  }

  /** JavaScript's `a % 60`: truncated, so the remainder takes the sign of `a`. */
  function JsRem60(a: int): (r: int)
    ensures -60 < r < 60
    ensures a >= 0 ==> r == a % 60
    ensures a < 0 ==> r == -((-a) % 60)
  {
    if a >= 0 then a % 60 else -((-a) % 60)
  }

  function Abs(a: int): nat {
    if a < 0 then -a else a
  }

  /** `n.toString().padStart(2, '0')`. */
  function Pad2(n: nat): (r: string)
    ensures |r| >= 2
    ensures n < 100 ==> |r| == 2
  {
    if n < 10 then "0" + NatToString(n) else NatToString(n)
  }

  /** The hours and minutes the code prints: the hours from a floor, the minutes from a truncated remainder. */
  function AsWrittenParts(offset: int): (nat, nat) {
    (Abs(FloorDiv60(offset)), Abs(JsRem60(offset)))
  }

  /** The hours and minutes of the offset's magnitude. */
  function CorrectedParts(offset: int): (parts: (nat, nat))
    ensures parts.0 * 60 + parts.1 == Abs(offset) && parts.1 < 60
  {
    (Abs(offset) / 60, Abs(offset) % 60)
  }

  function Render(offset: int, parts: (nat, nat)): string {
    "GMT" + (if offset <= 0 then "+" else "-") + Pad2(parts.0) + ":" + Pad2(parts.1)
  }

  /** The offset string as the exporter builds it. */
  function GmtStringAsWritten(offset: int): string {
    Render(offset, AsWrittenParts(offset))
  }

  /** The offset string with the hours and minutes of the offset's magnitude. */
  function GmtString(offset: int): string {
    Render(offset, CorrectedParts(offset))
  }

  // ---------------------------------------------------------------- properties

  /** The printed time is the offset: sign `+` for zones at or ahead of UTC, and hours and minutes that add up to it. */
  lemma GmtStringFaithful(offset: int)
    ensures var p := CorrectedParts(offset);
      GmtString(offset) == "GMT" + (if offset <= 0 then "+" else "-") + Pad2(p.0) + ":" + Pad2(p.1) &&
      p.0 * 60 + p.1 == Abs(offset) && p.1 < 60
  {
  }

  /** The code is right for zones behind UTC and for whole hours, and an hour too far otherwise. */
  lemma {:induction false} AsWrittenHours(offset: int)
    ensures offset >= 0 || offset % 60 == 0 ==> AsWrittenParts(offset) == CorrectedParts(offset)
    ensures offset < 0 && offset % 60 != 0 ==>
      AsWrittenParts(offset).0 == CorrectedParts(offset).0 + 1 && AsWrittenParts(offset).1 == CorrectedParts(offset).1
  {
    if offset < 0 {
      var m := -offset;
      var q, r := m / 60, m % 60;
      assert m == 60 * q + r;
      if r == 0 {
        assert offset == 60 * (-q);
        assert offset / 60 == -q;
      } else {
        assert offset == 60 * (-q - 1) + (60 - r);
        assert offset / 60 == -q - 1;
      }
    }
  }

  /** India's offset, -330 minutes, is printed an hour off: `GMT+06:30` instead of `GMT+05:30`. */
  lemma HalfHourZoneMisprinted()
    ensures GmtStringAsWritten(-330) == "GMT+06:30"
    ensures GmtString(-330) == "GMT+05:30"
  {
    assert -330 / 60 == -6;
    assert JsRem60(-330) == -30;
    assert NatToString(6) == "6" && NatToString(5) == "5";
    assert NatToString(30) == NatToString(3) + [Digit(0)];
    assert NatToString(3) == "3";
  }
}
