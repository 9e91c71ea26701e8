/** The message in which the two sides exchange connection keys: its two printed forms and their
    readers (lib/perf/perftest_communication.c, lib/perf/perftest_communication.h). */
module KeyMessage {
  import opened Basics
  import opened Modular

  datatype Dest = Dest(
    lid: nat, outReads: nat, qpn: nat, psn: nat, rkey: nat, vaddr: nat, gid: seq<nat>, srqn: nat)

  // ---- hexadecimal text

  function Digit(v: nat): char
    requires v < 16
  {
    if v < 10 then '0' + v as char else 'a' + (v - 10) as char
  }

  function DigitValue(c: char): Option<nat> {
    if '0' <= c <= '9' then Some((c - '0') as nat)
    else if 'a' <= c <= 'f' then Some((c - 'a') as nat + 10)
    else if 'A' <= c <= 'F' then Some((c - 'A') as nat + 10)
    else None
  }

  predicate IsHex(s: string) {
    forall i :: 0 <= i < |s| ==> DigitValue(s[i]).Some?
  }

  /** Two to the power 4n. */
  function Power16(n: nat): nat {
    if n == 0 then 1 else 16 * Power16(n - 1)
  }

  function HexDigits(v: nat): (s: string)
    ensures |s| > 0 && IsHex(s)
  {
    if v < 16 then [Digit(v)] else HexDigits(v / 16) + [Digit(v % 16)]
  }

  function ZeroPadded(s: string, width: nat): string
    decreases width - |s|
  {
    if |s| >= width then s else ZeroPadded("0" + s, width)
  }

  /** `%0<width>x`. */
  function PrintHex(v: nat, width: nat): string {
    ZeroPadded(HexDigits(v), width)
  }

  /** `strtoul` in base 16: the value of the longest prefix of digits. */
  function ParsePrefix(s: string, value: nat): nat {
    if s == "" || DigitValue(s[0]).None? then value
    else ParsePrefix(s[1..], 16 * value + DigitValue(s[0]).value)
  }

  function ParseHex(s: string): nat {
    ParsePrefix(s, 0)
  }

  lemma {:induction false} ParseThrough(s: string, t: string, value: nat)
    requires IsHex(s)
    ensures ParsePrefix(s + t, value) == ParsePrefix(t, ParsePrefix(s, value))
  {
    if s == "" {
      assert s + t == t;
    } else {
      assert (s + t)[1..] == s[1..] + t;
      ParseThrough(s[1..], t, 16 * value + DigitValue(s[0]).value);
    }
  }

  lemma ParseOneDigit(v: nat, value: nat)
    requires v < 16
    ensures ParsePrefix([Digit(v)], value) == 16 * value + v
  {
    assert [Digit(v)][1..] == "";
  }

  lemma {:induction false} ParseDigits(v: nat)
    ensures ParseHex(HexDigits(v)) == v
  {
    ParseOneDigit(v % 16, v / 16);
    if v >= 16 {
      ParseDigits(v / 16);
      ParseThrough(HexDigits(v / 16), [Digit(v % 16)], 0);
    }
  }

  lemma {:induction false} PaddingKeepsValue(s: string, width: nat)
    requires IsHex(s)
    ensures IsHex(ZeroPadded(s, width)) && ParseHex(ZeroPadded(s, width)) == ParseHex(s)
    ensures |ZeroPadded(s, width)| == if |s| >= width then |s| else width
    decreases width - |s|
  {
    if |s| < width {
      PaddingKeepsValue("0" + s, width);
      assert ("0" + s)[1..] == s;
    }
  }

  lemma {:induction false} DigitsFit(v: nat, width: nat)
    requires v < Power16(width) && width > 0
    ensures |HexDigits(v)| <= width
  {
    if v >= 16 {
      DigitsFit(v / 16, width - 1);
    }
  }

  /** A printed number that fits its width takes exactly that width, and whatever follows it up to the
      next non-digit is read back as the number. */
  lemma PrintThenParse(v: nat, width: nat, rest: string)
    requires 0 < width && v < Power16(width)
    requires rest == "" || DigitValue(rest[0]).None?
    ensures |PrintHex(v, width)| == width && IsHex(PrintHex(v, width))
    ensures ParseHex(PrintHex(v, width) + rest) == v
  {
    DigitsFit(v, width);
    ParseDigits(v);
    PaddingKeepsValue(HexDigits(v), width);
    ParseThrough(PrintHex(v, width), rest, 0);
  }

  // ---- the message

  const WIDTHS: seq<nat> := [4, 4, 6, 6, 8, 16, 8]
  const WIDTHS_GID: seq<nat> := [4, 4, 6, 6, 8, 16, 2, 2, 2, 2, 2, 2, 2, 2, 2, 2, 2, 2, 2, 2, 2, 2, 8]
  const KEY_MSG_SIZE: nat := 59
  const KEY_MSG_SIZE_GID: nat := 108

  function Values(d: Dest): seq<nat> {
    [d.lid, d.outReads, d.qpn, d.psn, d.rkey, d.vaddr, d.srqn]
  }

  function ValuesGid(d: Dest): seq<nat> {
    [d.lid, d.outReads, d.qpn, d.psn, d.rkey, d.vaddr] + d.gid + [d.srqn]
  }

  /** Every value fits the width it is printed with. */
  ghost predicate Fit(values: seq<nat>, widths: seq<nat>) {
    |values| == |widths| && forall i :: 0 <= i < |values| ==> 0 < widths[i] && values[i] < Power16(widths[i])
  }

  /** The fields from number k on, each followed by a colon, and the terminator. */
  function TailGid(values: seq<nat>, widths: seq<nat>, k: nat): string
    requires |values| == |widths| && k <= |values|
    decreases |values| - k
  {
    if k == |values| then "\0" else PrintHex(values[k], widths[k]) + ":" + TailGid(values, widths, k + 1)
  }

  /** The same without a colon after the last field. */
  function Tail(values: seq<nat>, widths: seq<nat>, k: nat): string
    requires |values| == |widths| && k < |values|
    decreases |values| - k
  {
    PrintHex(values[k], widths[k]) + if k == |values| - 1 then "\0" else ":" + Tail(values, widths, k + 1)
  }

  /** What `ethernet_write_keys` sends without a GID. */
  function WriteKeys(d: Dest): string {
    Tail(Values(d), WIDTHS, 0)
  }

  /** What it sends with one. */
  function WriteKeysGid(d: Dest): string
    requires |d.gid| == 16
  {
    TailGid(ValuesGid(d), WIDTHS_GID, 0)
  }

  function SumFrom(widths: seq<nat>, k: nat): nat
    requires k <= |widths|
    decreases |widths| - k
  {
    if k == |widths| then 0 else widths[k] + 1 + SumFrom(widths, k + 1)
  }

  lemma {:induction false} TailGidLength(values: seq<nat>, widths: seq<nat>, k: nat)
    requires Fit(values, widths) && k <= |values|
    ensures |TailGid(values, widths, k)| == SumFrom(widths, k) + 1
    decreases |values| - k
  {
    if k < |values| {
      PrintThenParse(values[k], widths[k], "");
      TailGidLength(values, widths, k + 1);
    }
  }

  lemma {:induction false} TailLength(values: seq<nat>, widths: seq<nat>, k: nat)
    requires Fit(values, widths) && k < |values|
    ensures |Tail(values, widths, k)| == SumFrom(widths, k)
    decreases |values| - k
  {
    PrintThenParse(values[k], widths[k], "");
    if k < |values| - 1 {
      TailLength(values, widths, k + 1);
    }
  }

  lemma {:induction false} GidWidths(k: nat)
    requires 6 <= k <= 22
    ensures SumFrom(WIDTHS_GID, k) == 3 * (22 - k) + 9
    decreases 22 - k
  {
    if k < 22 {
      GidWidths(k + 1);
    } else {
      assert SumFrom(WIDTHS_GID, 23) == 0;
    }
  }

  lemma HeadWidths(widths: seq<nat>)
    requires |widths| >= 6 && widths[..6] == [4, 4, 6, 6, 8, 16]
    ensures SumFrom(widths, 0) == 50 + SumFrom(widths, 6)
  {
    assert forall i :: 0 <= i < 6 ==> widths[i] == widths[..6][i];
    assert SumFrom(widths, 4) == 26 + SumFrom(widths, 6);
    assert SumFrom(widths, 2) == 14 + SumFrom(widths, 4);
  }

  /** Both messages fill their buffers exactly, terminator included. */
  lemma MessagesFillTheirBuffers(d: Dest)
    ensures Fit(Values(d), WIDTHS) ==> |WriteKeys(d)| == KEY_MSG_SIZE
    ensures |d.gid| == 16 && Fit(ValuesGid(d), WIDTHS_GID) ==> |WriteKeysGid(d)| == KEY_MSG_SIZE_GID
  {
    HeadWidths(WIDTHS);
    HeadWidths(WIDTHS_GID);
    GidWidths(6);
    if Fit(Values(d), WIDTHS) {
      TailLength(Values(d), WIDTHS, 0);
    }
    if |d.gid| == 16 && Fit(ValuesGid(d), WIDTHS_GID) {
      TailGidLength(ValuesGid(d), WIDTHS_GID, 0);
    }
  }

  // ---- reading with a GID

  /** The next colon before the terminator. */
  function NextColon(msg: string, pos: nat): (term: Option<nat>)
    requires pos <= |msg|
    ensures term.Some? ==> pos <= term.value < |msg|
    decreases |msg| - pos
  {
    if pos == |msg| || msg[pos] == '\0' then None
    else if msg[pos] == ':' then Some(pos)
    else NextColon(msg, pos + 1)
  }

  /** A field up to its colon, and the position behind the colon. */
  function Field(msg: string, pos: nat): (f: Option<(nat, nat)>)
    requires pos <= |msg|
    ensures f.Some? ==> f.value.1 <= |msg|
  {
    var term :- NextColon(msg, pos);
    Some((ParseHex(msg[pos..term]), term + 1))
  }

  /** The first n fields, and the position behind them. */
  function Fields(msg: string, n: nat): (f: Option<(seq<nat>, nat)>)
    ensures f.Some? ==> |f.value.0| == n && f.value.1 <= |msg|
  {
    if n == 0 then Some(([], 0))
    else
      var (values, pos) :- Fields(msg, n - 1);
      var (value, next) :- Field(msg, pos);
      Some((values + [value], next))
  }

  /** A message read field by field; None where the source counts on a colon that is missing. The last
      GID byte is read from the rest of the message and stepped over by its fixed width. */
  function ParseKeysGid(msg: string): Option<Dest> {
    var (v, pos) :- Fields(msg, 21);
    if pos + 3 > |msg| then None
    else
      var (srqn, _) :- Field(msg, pos + 3);
      Some(Dest(v[0], v[1], v[2], v[3], v[4], v[5], Truncated(v[6..]) + [ParseHex(msg[pos..]) % 256], srqn))
  }

  /** Each value cast to `unsigned char`. */
  function Truncated(values: seq<nat>): (bytes: seq<nat>)
    ensures |bytes| == |values| && forall i :: 0 <= i < |values| ==> bytes[i] == values[i] % 256
  {
    seq(|values|, i requires 0 <= i < |values| => values[i] % 256)
  }

  /** `strpbrk(pstr, ":")`. */
  method FindColon(msg: string, pstr: nat) returns (term: Option<nat>)
    requires pstr <= |msg|
    ensures term == NextColon(msg, pstr)
  {
    var i := pstr;
    while i < |msg| && msg[i] != '\0' && msg[i] != ':'
      invariant pstr <= i <= |msg| && NextColon(msg, pstr) == NextColon(msg, i)
    {
      i := i + 1;
    }
    term := if i < |msg| && msg[i] == ':' then Some(i) else None;
  }

  /** The repeated block of the reader: find the colon, copy the text before it, convert it. */
  method ReadField(msg: string, pstr: nat) returns (f: Option<(nat, nat)>)
    requires pstr <= |msg|
    ensures f == Field(msg, pstr)
  {
    var term :- FindColon(msg, pstr);
    f := Some((ParseHex(msg[pstr..term]), term + 1));
  }

  lemma {:induction false} MissingField(msg: string, k: nat, n: nat)
    requires k <= n && Fields(msg, k).None?
    ensures Fields(msg, n).None?
  {
    if k < n {
      MissingField(msg, k, n - 1);
    }
  }

  /** How the field at a position extends what has been read before it. */
  lemma NextField(msg: string, k: nat, values: seq<nat>, pos: nat, n: nat)
    requires k < n && Fields(msg, k) == Some((values, pos))
    ensures pos <= |msg|
    ensures Field(msg, pos).None? ==> Fields(msg, n).None?
    ensures Field(msg, pos).Some? ==>
              Fields(msg, k + 1) == Some((values + [Field(msg, pos).value.0], Field(msg, pos).value.1))
  {
    if Field(msg, pos).None? {
      assert Fields(msg, k + 1).None?;
      MissingField(msg, k + 1, n);
    }
  }

  /** The first six fields: LID, outstanding reads, QPN, PSN, RKEY and virtual address. */
  method ReadHead(msg: string) returns (f: Option<(seq<nat>, nat)>)
    ensures f == Fields(msg, 6)
  {
    var values: seq<nat> := [];
    NextField(msg, 0, values, 0, 6);
    var lid :- ReadField(msg, 0);
    values := values + [lid.0];
    NextField(msg, 1, values, lid.1, 6);
    var outReads :- ReadField(msg, lid.1);
    values := values + [outReads.0];
    NextField(msg, 2, values, outReads.1, 6);
    var qpn :- ReadField(msg, outReads.1);
    values := values + [qpn.0];
    NextField(msg, 3, values, qpn.1, 6);
    var psn :- ReadField(msg, qpn.1);
    values := values + [psn.0];
    NextField(msg, 4, values, psn.1, 6);
    var rkey :- ReadField(msg, psn.1);
    values := values + [rkey.0];
    NextField(msg, 5, values, rkey.1, 6);
    var vaddr :- ReadField(msg, rkey.1);
    values := values + [vaddr.0];
    f := Some((values, vaddr.1));
  }

  /** The loop over the first fifteen GID bytes. */
  method ReadGid(msg: string, head: seq<nat>, pos: nat) returns (f: Option<(seq<nat>, nat)>)
    requires Fields(msg, 6) == Some((head, pos))
    ensures f.None? <==> Fields(msg, 21).None?
    ensures f.Some? ==> Fields(msg, 21).value.0[..6] == head
    ensures f.Some? ==> f.value == (Truncated(Fields(msg, 21).value.0[6..]), Fields(msg, 21).value.1)
  {
    var gid: seq<nat>, pstr := [], pos;
    ghost var read := head;
    for i := 0 to 15
      invariant |read| == 6 + i && read[..6] == head && gid == Truncated(read[6..])
      invariant Fields(msg, 6 + i) == Some((read, pstr))
    {
      NextField(msg, 6 + i, read, pstr, 21);
      var raw :- ReadField(msg, pstr);
      assert (read + [raw.0])[6..] == read[6..] + [raw.0];
      gid, read, pstr := gid + [raw.0 % 256], read + [raw.0], raw.1;
    }
    f := Some((gid, pstr));
  }

  /** `ethernet_read_keys` for a message with a GID. */
  method ReadKeysGid(msg: string) returns (r: Option<Dest>)
    ensures r == ParseKeysGid(msg)
  {
    if Fields(msg, 6).None? {
      MissingField(msg, 6, 21);
    }
    var head :- ReadHead(msg);
    var gid :- ReadGid(msg, head.0, head.1);
    assert forall i :: 0 <= i < 6 ==> Fields(msg, 21).value.0[i] == Fields(msg, 21).value.0[..6][i];
    if gid.1 + 3 > |msg| {
      return None;
    }
    var srqn :- ReadField(msg, gid.1 + 3);
    var h := head.0;
    r := Some(Dest(h[0], h[1], h[2], h[3], h[4], h[5], gid.0 + [ParseHex(msg[gid.1..]) % 256], srqn.0));
  }

  lemma {:induction false} ColonAfterDigits(msg: string, pos: nat, text: string, rest: string)
    requires pos <= |msg| && msg[pos..] == text + ":" + rest && IsHex(text)
    ensures NextColon(msg, pos) == Some(pos + |text|)
    ensures msg[pos..pos + |text|] == text && msg[pos + |text| + 1..] == rest
    decreases |text|
  {
    assert |msg[pos..]| == |text| + 1 + |rest|;
    assert msg[pos] == msg[pos..][0];
    if text == "" {
      assert msg[pos + 1..] == msg[pos..][1..] == rest;
    } else {
      assert msg[pos + 1..] == msg[pos..][1..] == text[1..] + ":" + rest;
      assert DigitValue(text[0]).Some?;
      ColonAfterDigits(msg, pos + 1, text[1..], rest);
      assert msg[pos..pos + |text|] == [msg[pos]] + msg[pos + 1..pos + |text|];
    }
  }

  lemma ReadsBackField(msg: string, pos: nat, values: seq<nat>, widths: seq<nat>, k: nat)
    requires Fit(values, widths) && k < |values|
    requires pos <= |msg| && msg[pos..] == TailGid(values, widths, k)
    ensures Field(msg, pos).Some? && Field(msg, pos).value.0 == values[k]
    ensures Field(msg, pos).value.1 == pos + widths[k] + 1
    ensures pos + widths[k] + 1 <= |msg| && msg[pos + widths[k] + 1..] == TailGid(values, widths, k + 1)
  {
    var text := PrintHex(values[k], widths[k]);
    PrintThenParse(values[k], widths[k], "");
    assert text + "" == text;
    ColonAfterDigits(msg, pos, text, TailGid(values, widths, k + 1));
  }

  /** The first n fields read back, and what is left of the message is the rest of the fields. */
  ghost predicate ReadBack(msg: string, values: seq<nat>, widths: seq<nat>, n: nat)
    requires |values| == |widths| && n <= |values|
  {
    && Fields(msg, n).Some?
    && Fields(msg, n).value.0 == values[..n]
    && msg[Fields(msg, n).value.1..] == TailGid(values, widths, n)
  }

  lemma ReadsBackNext(msg: string, values: seq<nat>, widths: seq<nat>, n: nat)
    requires Fit(values, widths) && n < |values| && ReadBack(msg, values, widths, n)
    ensures ReadBack(msg, values, widths, n + 1)
  {
    var pos := Fields(msg, n).value.1;
    ReadsBackField(msg, pos, values, widths, n);
    NextField(msg, n, values[..n], pos, n + 1);
    assert values[..n + 1] == values[..n] + [values[n]];
  }

  lemma {:induction false} ReadsBackFields(msg: string, values: seq<nat>, widths: seq<nat>, n: nat)
    requires Fit(values, widths) && n <= |values| && msg == TailGid(values, widths, 0)
    ensures ReadBack(msg, values, widths, n)
  {
    if n == 0 {
      assert Fields(msg, 0) == Some(([], 0));
    } else {
      ReadsBackFields(msg, values, widths, n - 1);
      ReadsBackNext(msg, values, widths, n - 1);
    }
  }

  /** The last GID byte is read from the rest of the message, and `srqn` three characters further on. */
  lemma LastFieldsReadBack(d: Dest, msg: string, pos: nat)
    requires |d.gid| == 16 && Fit(ValuesGid(d), WIDTHS_GID)
    requires pos <= |msg| && msg[pos..] == TailGid(ValuesGid(d), WIDTHS_GID, 21)
    ensures ParseHex(msg[pos..]) == ValuesGid(d)[21] && pos + 3 <= |msg|
    ensures Field(msg, pos + 3).Some? && Field(msg, pos + 3).value.0 == ValuesGid(d)[22]
  {
    var v := ValuesGid(d);
    ReadsBackField(msg, pos, v, WIDTHS_GID, 21);
    var rest := ":" + TailGid(v, WIDTHS_GID, 22);
    PrintThenParse(v[21], 2, rest);
    assert msg[pos..] == PrintHex(v[21], 2) + rest;
    ReadsBackField(msg, pos + 3, v, WIDTHS_GID, 22);
  }

  /** Every message written with a GID is read back in full. */
  lemma RoundTripGid(d: Dest)
    requires |d.gid| == 16 && Fit(ValuesGid(d), WIDTHS_GID)
    ensures ParseKeysGid(WriteKeysGid(d)) == Some(d)
  {
    var v, msg := ValuesGid(d), WriteKeysGid(d);
    ReadsBackFields(msg, v, WIDTHS_GID, 21);
    LastFieldsReadBack(d, msg, Fields(msg, 21).value.1);
    GidBytes(d);
  }

  lemma GidBytes(d: Dest)
    requires |d.gid| == 16 && Fit(ValuesGid(d), WIDTHS_GID)
    ensures var v := ValuesGid(d)[..21]; Truncated(v[6..]) + [ValuesGid(d)[21] % 256] == d.gid
    ensures ValuesGid(d)[22] == d.srqn
  {
    var v := ValuesGid(d);
    assert Power16(2) == 256;
    forall i | 0 <= i < 16
      ensures v[6 + i] == d.gid[i] && d.gid[i] < 256
    {
      assert WIDTHS_GID[6 + i] == 2;
    }
  }

  // ---- reading without a GID

  /** `%<width>x` of sscanf: at least one digit and at most `width`. */
  function DigitsAt(s: string, pos: nat, width: nat): (n: nat)
    requires pos <= |s|
    ensures n <= width && pos + n <= |s|
    decreases width
  {
    if width == 0 || pos == |s| || DigitValue(s[pos]).None? then 0 else 1 + DigitsAt(s, pos + 1, width - 1)
  }

  /** The conversions from number k on, with the colons between them. None if sscanf stops early, which
      the source reports as an error. */
  function ScanFrom(s: string, pos: nat, widths: seq<nat>, k: nat): Option<seq<nat>>
    requires pos <= |s| && k < |widths|
    decreases |widths| - k
  {
    var n := DigitsAt(s, pos, widths[k]);
    if n == 0 then None
    else
      var value := ParseHex(s[pos..pos + n]);
      if k == |widths| - 1 then Some([value])
      else if pos + n == |s| || s[pos + n] != ':' then None
      else
        var values :- ScanFrom(s, pos + n + 1, widths, k + 1);
        Some([value] + values)
  }

  /** `ethernet_read_keys` for a message without a GID, into what is known of the other side already; None
      where not all seven conversions succeed. */
  function ParseKeys(msg: string, known: Dest): Option<Dest> {
    var v :- ScanFrom(msg, 0, WIDTHS, 0);
    if |v| != 7 then None
    else
      Some(known.(lid := v[0], outReads := v[1], qpn := v[2], psn := v[3], rkey := v[4], vaddr := v[5], srqn := v[6]))
  }

  lemma {:induction false} AllDigits(s: string, pos: nat, text: string, rest: string)
    requires pos <= |s| && s[pos..] == text + rest && IsHex(text)
    ensures DigitsAt(s, pos, |text|) == |text|
    ensures s[pos..pos + |text|] == text && s[pos + |text|..] == rest
    decreases |text|
  {
    assert |s[pos..]| == |text| + |rest|;
    if text == "" {
      assert s[pos..] == rest;
    } else {
      assert s[pos] == s[pos..][0] == text[0];
      assert s[pos + 1..] == s[pos..][1..] == text[1..] + rest;
      assert DigitValue(text[0]).Some?;
      AllDigits(s, pos + 1, text[1..], rest);
      assert s[pos..pos + |text|] == [s[pos]] + s[pos + 1..pos + |text|];
    }
  }

  lemma ScanStep(s: string, pos: nat, v: nat, width: nat, rest: string)
    requires 0 < width && v < Power16(width) && pos <= |s| && s[pos..] == PrintHex(v, width) + rest
    ensures DigitsAt(s, pos, width) == width && pos + width <= |s|
    ensures ParseHex(s[pos..pos + width]) == v && s[pos + width..] == rest
  {
    PrintThenParse(v, width, "");
    assert PrintHex(v, width) + "" == PrintHex(v, width);
    AllDigits(s, pos, PrintHex(v, width), rest);
  }

  /** Scanning from field k on yields all the values from there. */
  ghost predicate ScansTo(s: string, pos: nat, values: seq<nat>, widths: seq<nat>, k: nat) {
    && pos <= |s| && k < |values| == |widths|
    && ScanFrom(s, pos, widths, k) == Some(values[k..])
  }

  lemma ScanLast(s: string, pos: nat, values: seq<nat>, widths: seq<nat>, k: nat)
    requires Fit(values, widths) && k + 1 == |values|
    requires pos <= |s| && s[pos..] == Tail(values, widths, k)
    ensures ScansTo(s, pos, values, widths, k)
  {
    ScanStep(s, pos, values[k], widths[k], "\0");
    assert values[k..] == [values[k]];
  }

  lemma BehindColon(s: string, end: nat, rest: string)
    requires end <= |s| && s[end..] == ":" + rest
    ensures end + 1 <= |s| && s[end] == ':' && s[end + 1..] == rest
  {
    assert s[end] == s[end..][0] && s[end + 1..] == s[end..][1..];
  }

  /** The message from field k + 1 on follows a scanned field and its colon. */
  lemma ScanMore(s: string, pos: nat, values: seq<nat>, widths: seq<nat>, k: nat)
    requires Fit(values, widths) && k + 1 < |values|
    requires pos <= |s| && s[pos..] == Tail(values, widths, k)
    ensures DigitsAt(s, pos, widths[k]) == widths[k] && pos + widths[k] + 1 <= |s|
    ensures ParseHex(s[pos..pos + widths[k]]) == values[k] && s[pos + widths[k]] == ':'
    ensures s[pos + widths[k] + 1..] == Tail(values, widths, k + 1)
  {
    var rest := Tail(values, widths, k + 1);
    assert s[pos..] == PrintHex(values[k], widths[k]) + (":" + rest);
    ScanStep(s, pos, values[k], widths[k], ":" + rest);
    BehindColon(s, pos + widths[k], rest);
  }

  lemma ScanJoin(s: string, pos: nat, values: seq<nat>, widths: seq<nat>, k: nat)
    requires |values| == |widths| && k + 1 < |values| && pos <= |s| && widths[k] > 0
    requires DigitsAt(s, pos, widths[k]) == widths[k] && pos + widths[k] + 1 <= |s|
    requires ParseHex(s[pos..pos + widths[k]]) == values[k] && s[pos + widths[k]] == ':'
    requires ScansTo(s, pos + widths[k] + 1, values, widths, k + 1)
    ensures ScansTo(s, pos, values, widths, k)
  {
    assert values[k..] == [values[k]] + values[k + 1..];
  }

  lemma {:induction false} ScansBack(s: string, pos: nat, values: seq<nat>, widths: seq<nat>, k: nat)
    requires Fit(values, widths) && k < |values|
    requires pos <= |s| && s[pos..] == Tail(values, widths, k)
    ensures ScansTo(s, pos, values, widths, k)
    decreases |values| - k
  {
    if k + 1 == |values| {
      ScanLast(s, pos, values, widths, k);
    } else {
      ScanMore(s, pos, values, widths, k);
      ScansBack(s, pos + widths[k] + 1, values, widths, k + 1);
      ScanJoin(s, pos, values, widths, k);
    }
  }

  /** Every message written without a GID is read back in full, and leaves the GID alone. */
  lemma RoundTrip(d: Dest, known: Dest)
    requires Fit(Values(d), WIDTHS)
    ensures ParseKeys(WriteKeys(d), known) == Some(d.(gid := known.gid))
  {
    ScansBack(WriteKeys(d), 0, Values(d), WIDTHS, 0);
    assert Values(d)[0..] == Values(d);
  }

  // ---- which characters carry which field

  /** The characters from a position on print a value in a given width, and another character ends them. */
  predicate PrintedAt(msg: string, pos: nat, v: nat, width: nat, end: char) {
    pos + width < |msg| && msg[pos..pos + width] == PrintHex(v, width) && msg[pos + width] == end
  }

  lemma FieldPrinted(msg: string, pos: nat, v: nat, width: nat, end: char, rest: string)
    requires 0 < width && v < Power16(width) && pos <= |msg| && msg[pos..] == PrintHex(v, width) + [end] + rest
    ensures PrintedAt(msg, pos, v, width, end) && msg[pos + width + 1..] == rest
  {
    PrintThenParse(v, width, "");
    assert msg[pos..pos + width] == msg[pos..][..width];
    assert msg[pos + width] == msg[pos..][width];
    assert msg[pos + width + 1..] == msg[pos..][width + 1..];
  }

  lemma TailPrinted(msg: string, pos: nat, values: seq<nat>, widths: seq<nat>, k: nat)
    requires Fit(values, widths) && k < |values| && pos <= |msg| && msg[pos..] == Tail(values, widths, k)
    ensures PrintedAt(msg, pos, values[k], widths[k], if k == |values| - 1 then '\0' else ':')
    ensures k < |values| - 1 ==> msg[pos + widths[k] + 1..] == Tail(values, widths, k + 1)
  {
    if k == |values| - 1 {
      FieldPrinted(msg, pos, values[k], widths[k], '\0', "");
    } else {
      FieldPrinted(msg, pos, values[k], widths[k], ':', Tail(values, widths, k + 1));
    }
  }

  lemma TailGidPrinted(msg: string, pos: nat, values: seq<nat>, widths: seq<nat>, k: nat)
    requires Fit(values, widths) && k < |values| && pos <= |msg| && msg[pos..] == TailGid(values, widths, k)
    ensures PrintedAt(msg, pos, values[k], widths[k], ':')
    ensures msg[pos + widths[k] + 1..] == TailGid(values, widths, k + 1)
  {
    FieldPrinted(msg, pos, values[k], widths[k], ':', TailGid(values, widths, k + 1));
  }

  /** The places of the fields in a message without a GID. */
  lemma LayoutOfMessage(d: Dest)
    requires Fit(Values(d), WIDTHS)
    ensures var m := WriteKeys(d);
            && PrintedAt(m, 0, d.lid, 4, ':') && PrintedAt(m, 5, d.outReads, 4, ':') && PrintedAt(m, 10, d.qpn, 6, ':')
            && PrintedAt(m, 17, d.psn, 6, ':') && PrintedAt(m, 24, d.rkey, 8, ':')
            && PrintedAt(m, 33, d.vaddr, 16, ':') && PrintedAt(m, 50, d.srqn, 8, '\0')
  {
    var m, v := WriteKeys(d), Values(d);
    TailPrinted(m, 0, v, WIDTHS, 0);
    TailPrinted(m, 5, v, WIDTHS, 1);
    TailPrinted(m, 10, v, WIDTHS, 2);
    TailPrinted(m, 17, v, WIDTHS, 3);
    TailPrinted(m, 24, v, WIDTHS, 4);
    TailPrinted(m, 33, v, WIDTHS, 5);
    TailPrinted(m, 50, v, WIDTHS, 6);
  }

  lemma StartOfGidMessage(d: Dest)
    requires |d.gid| == 16 && Fit(ValuesGid(d), WIDTHS_GID)
    ensures var m := WriteKeysGid(d);
            && PrintedAt(m, 0, d.lid, 4, ':') && PrintedAt(m, 5, d.outReads, 4, ':') && PrintedAt(m, 10, d.qpn, 6, ':')
            && m[17..] == TailGid(ValuesGid(d), WIDTHS_GID, 3)
  {
    var m, v := WriteKeysGid(d), ValuesGid(d);
    TailGidPrinted(m, 0, v, WIDTHS_GID, 0);
    TailGidPrinted(m, 5, v, WIDTHS_GID, 1);
    TailGidPrinted(m, 10, v, WIDTHS_GID, 2);
  }

  lemma HeadOfGidMessage(d: Dest)
    requires |d.gid| == 16 && Fit(ValuesGid(d), WIDTHS_GID)
    ensures var m := WriteKeysGid(d);
            && PrintedAt(m, 0, d.lid, 4, ':') && PrintedAt(m, 5, d.outReads, 4, ':') && PrintedAt(m, 10, d.qpn, 6, ':')
            && PrintedAt(m, 17, d.psn, 6, ':') && PrintedAt(m, 24, d.rkey, 8, ':') && PrintedAt(m, 33, d.vaddr, 16, ':')
            && m[50..] == TailGid(ValuesGid(d), WIDTHS_GID, 6)
  {
    var m, v := WriteKeysGid(d), ValuesGid(d);
    StartOfGidMessage(d);
    TailGidPrinted(m, 17, v, WIDTHS_GID, 3);
    TailGidPrinted(m, 24, v, WIDTHS_GID, 4);
    TailGidPrinted(m, 33, v, WIDTHS_GID, 5);
  }

  lemma {:induction false} GidReached(d: Dest, i: nat)
    requires |d.gid| == 16 && Fit(ValuesGid(d), WIDTHS_GID) && i <= 16
    ensures 50 + 3 * i <= |WriteKeysGid(d)|
    ensures WriteKeysGid(d)[50 + 3 * i..] == TailGid(ValuesGid(d), WIDTHS_GID, 6 + i)
  {
    if i == 0 {
      HeadOfGidMessage(d);
    } else {
      GidReached(d, i - 1);
      assert WIDTHS_GID[6 + i - 1] == 2;
      TailGidPrinted(WriteKeysGid(d), 50 + 3 * (i - 1), ValuesGid(d), WIDTHS_GID, 6 + i - 1);
    }
  }

  /** In a message with one the GID bytes follow at every third character, and `srqn` behind them. */
  lemma LayoutOfGidMessage(d: Dest, i: nat)
    requires |d.gid| == 16 && Fit(ValuesGid(d), WIDTHS_GID) && i < 16
    ensures PrintedAt(WriteKeysGid(d), 50 + 3 * i, d.gid[i], 2, ':')
    ensures PrintedAt(WriteKeysGid(d), 98, d.srqn, 8, ':')
  {
    GidByteAt(d, i);
    GidReached(d, 16);
    LastAt(WriteKeysGid(d), ValuesGid(d));
  }

  lemma GidByteAt(d: Dest, i: nat)
    requires |d.gid| == 16 && Fit(ValuesGid(d), WIDTHS_GID) && i < 16
    ensures PrintedAt(WriteKeysGid(d), 50 + 3 * i, d.gid[i], 2, ':')
  {
    GidReached(d, i);
    ByteAt(WriteKeysGid(d), 50 + 3 * i, ValuesGid(d), 6 + i, d.gid[i]);
  }

  lemma ByteAt(msg: string, pos: nat, values: seq<nat>, k: nat, value: nat)
    requires Fit(values, WIDTHS_GID) && 6 <= k < 22 && values[k] == value && pos <= |msg|
    requires msg[pos..] == TailGid(values, WIDTHS_GID, k)
    ensures PrintedAt(msg, pos, value, 2, ':')
  {
    TailGidPrinted(msg, pos, values, WIDTHS_GID, k);
  }

  lemma LastAt(msg: string, values: seq<nat>)
    requires Fit(values, WIDTHS_GID) && 98 <= |msg| && msg[98..] == TailGid(values, WIDTHS_GID, 22)
    ensures PrintedAt(msg, 98, values[22], 8, ':')
  {
    TailGidPrinted(msg, 98, values, WIDTHS_GID, 22);
  }
}
