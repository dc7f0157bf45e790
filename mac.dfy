/**
 * `etoi`: the node identifier of a host or switch is read off its MAC
 * address, as the hexadecimal value of the text after the last ':'.
 */
module Mac {
  import opened Wrappers

  function Pow16(n: nat): (r: nat)
    ensures r >= 1
  {
    if n == 0 then 1 else 16 * Pow16(n - 1)
  }

  /** `s.split(':')[-1]`: the text after the last ':', or all of `s` when it has none. */
  function LastSegment(s: string): (seg: string)
    ensures ':' !in seg
    ensures |seg| <= |s| && seg == s[|s| - |seg|..]
    ensures |seg| < |s| ==> s[|s| - |seg| - 1] == ':'
  {
    if s == [] then []
    else if s[|s| - 1] == ':' then []
    else LastSegment(s[..|s| - 1]) + [s[|s| - 1]]
  }

  function HexDigit(c: char): (r: Option<nat>)
    ensures r.Some? ==> r.value < 16
  {
    if '0' <= c <= '9' then Some(c as nat - '0' as nat)
    else if 'a' <= c <= 'f' then Some(c as nat - 'a' as nat + 10)
    else if 'A' <= c <= 'F' then Some(c as nat - 'A' as nat + 10)
    else None
  }

  /** `int(ds, 16)` on plain hex digits; None where Python raises ValueError. */
  function ParseHex(ds: string): (r: Option<nat>)
    ensures r.Some? ==> r.value < Pow16(|ds|)
  {
    if ds == [] then None
    else
      var last := HexDigit(ds[|ds| - 1]);
      if last.None? then None
      else if |ds| == 1 then last
      else
        var high := ParseHex(ds[..|ds| - 1]);
        if high.None? then None
        else Some(16 * high.value + last.value)
  }

  /** `int(ds, 16)` succeeds exactly on a non-empty run of hex digits. */
  lemma {:induction false} ParseHexDefined(ds: string)
    ensures ParseHex(ds).Some? <==> ds != [] && forall i :: 0 <= i < |ds| ==> HexDigit(ds[i]).Some?
  {
    if |ds| > 1 {
      var init := ds[..|ds| - 1];
      ParseHexDefined(init);
      assert forall i :: 0 <= i < |init| ==> init[i] == ds[i];
    }
  }

  /** `etoi(ethaddr)` applied to the text form of the address. */
  function Etoi(ethaddr: string): Option<nat>
  {
    ParseHex(LastSegment(ethaddr))
  }

  function HexChar(d: nat): (c: char)
    requires d < 16
    ensures HexDigit(c) == Some(d)
  {
    if d < 10 then ('0' as int + d) as char else ('a' as int + d - 10) as char
  }

  /** `n` written with exactly `width` lower-case hex digits. */
  function ToHex(n: nat, width: nat): (s: string)
    requires n < Pow16(width)
    ensures |s| == width && ':' !in s
  {
    if width == 0 then [] else ToHex(n / 16, width - 1) + [HexChar(n % 16)]
  }

  /** The text form of a MAC address: two hex digits per byte, joined by ':'. */
  function MacText(bytes: seq<nat>): (s: string)
    requires |bytes| >= 1 && forall i :: 0 <= i < |bytes| ==> bytes[i] < 256
  {
    var tail := ToHex(bytes[|bytes| - 1], 2);
    if |bytes| == 1 then tail else MacText(bytes[..|bytes| - 1]) + [':'] + tail
  }

  /** Parsing undoes printing, at any width. */
  lemma {:induction false} ParseToHex(n: nat, width: nat)
    requires 1 <= width && n < Pow16(width)
    ensures ParseHex(ToHex(n, width)) == Some(n)
  {
    var q, d := n / 16, n % 16;
    var c := HexChar(d);
    assert ToHex(n, width) == ToHex(q, width - 1) + [c];
    if width == 1 {
      assert q == 0 && d == n;
    } else {
      assert q < Pow16(width - 1) && 16 * q + d == n;
      ParseToHex(q, width - 1);
      ParseHexSnoc(ToHex(q, width - 1), c);
    }
  }

  /** One more digit multiplies the value so far by 16 and adds the digit. */
  lemma ParseHexSnoc(ds: string, c: char)
    requires HexDigit(c).Some? && ParseHex(ds).Some?
    ensures ParseHex(ds + [c]) == Some(16 * ParseHex(ds).value + HexDigit(c).value)
  {
    var s := ds + [c];
    assert ds != [];
    assert s[..|s| - 1] == ds;
  }

  /** `etoi` yields the last byte of a MAC address in its text form. */
  lemma {:induction false} EtoiOfMacText(bytes: seq<nat>)
    requires |bytes| >= 1 && forall i :: 0 <= i < |bytes| ==> bytes[i] < 256
    ensures Etoi(MacText(bytes)) == Some(bytes[|bytes| - 1])
  {
    var tail := ToHex(bytes[|bytes| - 1], 2);
    ParseToHex(bytes[|bytes| - 1], 2);
    if |bytes| > 1 {
      var s := MacText(bytes[..|bytes| - 1]) + [':'] + tail;
      assert LastSegment(s) == tail by {
        var prefix := MacText(bytes[..|bytes| - 1]) + [':'];
        assert s == prefix + tail;
        assert s[..|s| - 1] == prefix + tail[..1];
        assert (prefix + tail[..1])[..|prefix|] == prefix;
        assert LastSegment(prefix) == [];
      }
    } else {
      assert LastSegment(tail) == tail by {
        assert tail[..1][..0] == [];
      }
    }
  }

  /** Whatever precedes the last ':' does not matter to `LastSegment`. */
  lemma {:induction false} LastSegmentAfterColon(prefix: string, seg: string)
    requires ':' !in seg
    ensures LastSegment(prefix + [':'] + seg) == seg
  {
    var s := prefix + [':'] + seg;
    if seg != [] {
      assert s[..|s| - 1] == prefix + [':'] + seg[..|seg| - 1];
      LastSegmentAfterColon(prefix, seg[..|seg| - 1]);
    }
  }

  /** A final segment of two hex digits names a node in 0..255. */
  lemma EtoiTwoDigitBound(ethaddr: string)
    requires |LastSegment(ethaddr)| == 2 && Etoi(ethaddr).Some?
    ensures Etoi(ethaddr).value <= 255
  {
    assert Pow16(2) == 256;
  }
}
