/**
 serialize and parse undo each other: the round trip for every format, exactly when it holds, and
 what length caps do and do not change.
 */
module CodecLaws {
  import opened Codec

  // ---- Numbers ----

  lemma PackUnpack(i: int)
    ensures Unpack16(Pack16(i)) == i % U16
    ensures UnpackI16(Pack16(i)) == i <==> -0x8000 <= i < 0x8000
  {
    var q := i / 256;
    assert i == (q / 256) * U16 + (q % 256 * 256 + i % 256);
  }

  lemma UnpackPack(b: seq<byte>)
    requires |b| == 2
    ensures Pack16(Unpack16(b)) == b && Pack16(UnpackI16(b)) == b
  {
  }

  // ---- Formats ----

  /** The fields that a format asks serialize for. */
  function Fields(format: string): string {
    if format == "" then ""
    else if IsField(format[0]) then [format[0]] + Fields(format[1..])
    else Fields(format[1..])
  }

  /** Only the fields matter to serialize: caps in its format are ignored. */
  lemma {:induction false} EncodeFields(format: string, args: seq<Arg>)
    ensures WellTyped(format, args) == WellTyped(Fields(format), args)
    ensures WellTyped(format, args) ==> Encode(format, args) == Encode(Fields(format), args)
    ensures WellTyped(format, args) ==> Short(format, args) == Short(Fields(format), args)
  {
    if format != "" {
      if IsField(format[0]) {
        assert Fields(format)[1..] == Fields(format[1..]);
        if args != [] {
          EncodeFields(format[1..], args[1..]);
        }
      } else {
        EncodeFields(format[1..], args);
      }
    }
  }

  /** No text is too long for its 16-bit length field. */
  predicate Short(format: string, args: seq<Arg>)
    requires WellTyped(format, args)
  {
    if format == "" then true
    else if !IsField(format[0]) then Short(format[1..], args)
    else (format[0] == 's' ==> |args[0].bytes| < U16) && Short(format[1..], args[1..])
  }

  /** The argument as a field of that letter can hold it. */
  function Cut(ch: char, cap: nat, arg: Arg): Arg
    requires IsField(ch) && Suits(ch, arg)
  {
    match ch
    case 'c' => Number(Resign(arg.n % 256))
    case 'C' => Number(arg.n % 256)
    case 'H' => Number(arg.n % U16)
    case _ => Text(Capped(arg.bytes, cap))
  }

  /** What should arrive: every argument cut to the width or the cap of its field. */
  function Stored(format: string, args: seq<Arg>, cap: nat): seq<Arg>
    requires WellTyped(format, args)
    decreases |format|
  {
    if format == "" then []
    else if !IsField(format[0]) then Stored(format[1..], args, NextCap(format[0], cap))
    else [Cut(format[0], cap, args[0])] + Stored(format[1..], args[1..], 0)
  }

  // ---- The round trip ----

  lemma FieldBack(ch: char, cap: nat, arg: Arg, rest: seq<byte>)
    requires IsField(ch) && Suits(ch, arg) && (ch == 's' ==> |arg.bytes| < U16)
    ensures Width(ch, Field(ch, arg) + rest) == |Field(ch, arg)|
    ensures Value(ch, cap, Field(ch, arg) + rest) == Cut(ch, cap, arg)
  {
    if ch == 's' {
      PackUnpack(|arg.bytes|);
      var bytes := Field(ch, arg) + rest;
      assert bytes[..2] == Pack16(|arg.bytes|);
      assert bytes[2..2 + |arg.bytes|] == arg.bytes;
    } else if ch == 'H' {
      PackUnpack(arg.n);
    }
  }

  /** Any parse format, caps included, reads what any serialize format with the same fields wrote,
      whatever bytes follow, and its cursor moves exactly over what was written. */
  lemma {:induction false} RoundTrip(format: string, args: seq<Arg>, suffix: seq<byte>, cap: nat)
    requires 'h' !in format && WellTyped(format, args) && Short(format, args)
    ensures Readable(format, Encode(format, args) + suffix)
    ensures Decode(format, Encode(format, args) + suffix, cap)
            == Parsed(Stored(format, args, cap), |Encode(format, args)|)
    decreases |format|
  {
    if format != "" {
      var ch := format[0];
      if !IsField(ch) {
        RoundTrip(format[1..], args, suffix, NextCap(ch, cap));
      } else {
        var field, tail := Field(ch, args[0]), Encode(format[1..], args[1..]);
        assert (field + tail) + suffix == field + (tail + suffix);
        assert (field + (tail + suffix))[|field|..] == tail + suffix;
        FieldBack(ch, cap, args[0], tail + suffix);
        RoundTrip(format[1..], args[1..], suffix, 0);
      }
    }
  }

  lemma RoundTripTwoFormats(pf: string, sf: string, args: seq<Arg>, suffix: seq<byte>)
    requires Fields(pf) == Fields(sf) && 'h' !in pf
    requires WellTyped(sf, args) && Short(sf, args)
    ensures WellTyped(pf, args)
    ensures Readable(pf, Encode(sf, args) + suffix)
    ensures Decode(pf, Encode(sf, args) + suffix, 0)
            == Parsed(Stored(pf, args, 0), |Encode(sf, args)|)
  {
    EncodeFields(pf, args);
    EncodeFields(sf, args);
    RoundTrip(pf, args, suffix, 0);
  }

  /** Every argument fits its field and every text its cap. */
  predicate InRange(format: string, args: seq<Arg>, cap: nat)
    requires WellTyped(format, args)
    decreases |format|
  {
    if format == "" then true
    else if !IsField(format[0]) then InRange(format[1..], args, NextCap(format[0], cap))
    else InRange(format[1..], args[1..], 0) &&
         match format[0]
         case 'c' => -0x80 <= args[0].n < 0x80
         case 'C' => 0 <= args[0].n < 256
         case 'H' => 0 <= args[0].n < U16
         case _ => cap == 0 || |args[0].bytes| <= cap
  }

  /** Nothing is lost exactly when every argument is in range. */
  lemma {:induction false} StoredExactIff(format: string, args: seq<Arg>, cap: nat)
    requires WellTyped(format, args)
    ensures |Stored(format, args, cap)| <= |args|
    ensures Stored(format, args, cap) == args[..|Stored(format, args, cap)|] <==> InRange(format, args, cap)
    decreases |format|
  {
    if format != "" {
      if !IsField(format[0]) {
        StoredExactIff(format[1..], args, NextCap(format[0], cap));
      } else {
        StoredExactIff(format[1..], args[1..], 0);
        var rest := Stored(format[1..], args[1..], 0);
        var all := Stored(format, args, cap);
        assert all[1..] == rest;
        assert args[..|all|][1..] == args[1..][..|rest|];
        CutExactIff(format[0], cap, args[0]);
        assert all == args[..|all|] <==> all[0] == args[0] && all[1..] == args[..|all|][1..];
      }
    }
  }

  lemma CutExactIff(ch: char, cap: nat, arg: Arg)
    requires IsField(ch) && Suits(ch, arg)
    ensures Cut(ch, cap, arg) == arg <==>
            match ch
            case 'c' => -0x80 <= arg.n < 0x80
            case 'C' => 0 <= arg.n < 256
            case 'H' => 0 <= arg.n < U16
            case _ => cap == 0 || |arg.bytes| <= cap
  {
  }

  /** Without caps, the texts come back exactly when every one fits its length field: the length of
      a longer one is written modulo 65536. */
  lemma {:induction false} RoundTripIff(format: string, args: seq<Arg>, suffix: seq<byte>)
    requires 'h' !in format && WellTyped(format, args)
    requires forall ch :: ch in format ==> !IsDigit(ch)
    ensures var bytes := Encode(format, args) + suffix;
            Readable(format, bytes) && Decode(format, bytes, 0).values == Stored(format, args, 0)
            <==> Short(format, args)
  {
    if Short(format, args) {
      RoundTrip(format, args, suffix, 0);
    } else {
      LongTextLost(format, args, suffix);
    }
  }

  lemma {:induction false} LongTextLost(format: string, args: seq<Arg>, suffix: seq<byte>)
    requires 'h' !in format && WellTyped(format, args) && !Short(format, args)
    requires forall ch :: ch in format ==> !IsDigit(ch)
    ensures var bytes := Encode(format, args) + suffix;
            Readable(format, bytes) ==> Decode(format, bytes, 0).values != Stored(format, args, 0)
  {
    var ch := format[0];
    var bytes := Encode(format, args) + suffix;
    if !IsField(ch) {
      LongTextLost(format[1..], args, suffix);
    } else if Readable(format, bytes) {
      var field, tail := Field(ch, args[0]), Encode(format[1..], args[1..]);
      var result := Decode(format, bytes, 0).values;
      if ch == 's' && |args[0].bytes| >= U16 {
        assert |result[0].bytes| < U16;
      } else {
        assert bytes == field + (tail + suffix);
        assert bytes[|field|..] == tail + suffix;
        FieldBack(ch, 0, args[0], tail + suffix);
        LongTextLost(format[1..], args[1..], suffix);
        assert result[1..] == Decode(format[1..], tail + suffix, 0).values;
        assert Stored(format, args, 0)[1..] == Stored(format[1..], args[1..], 0);
      }
    }
  }

  /** The other direction: what parse read, serialize writes again, byte for byte. */
  lemma {:induction false} ReadBack(format: string, bytes: seq<byte>)
    requires 'h' !in format && (forall ch :: ch in format ==> !IsDigit(ch))
    requires Readable(format, bytes)
    requires forall v :: v in Decode(format, bytes, 0).values && v.Text? ==> 0 !in v.bytes
    ensures var r := Decode(format, bytes, 0);
            WellTyped(format, r.values) && Encode(format, r.values) == bytes[..r.used]
  {
    if format != "" {
      var ch := format[0];
      var r := Decode(format, bytes, 0);
      if !IsField(ch) {
        ReadBack(format[1..], bytes);
      } else {
        var width := Width(ch, bytes);
        var rest := Decode(format[1..], bytes[width..], 0);
        assert r.values[0] == Value(ch, 0, bytes) && r.values[1..] == rest.values;
        ReadBack(format[1..], bytes[width..]);
        FieldAgain(ch, bytes);
        assert bytes[..r.used] == bytes[..width] + bytes[width..][..rest.used];
      }
    }
  }

  lemma FieldAgain(ch: char, bytes: seq<byte>)
    requires IsField(ch) && |bytes| >= Width(ch, bytes) && Suits(ch, Value(ch, 0, bytes))
    ensures Field(ch, Value(ch, 0, bytes)) == bytes[..Width(ch, bytes)]
  {
    if ch == 's' {
      UnpackPack(bytes[..2]);
      assert bytes[..Width(ch, bytes)] == bytes[..2] + bytes[2..Width(ch, bytes)];
    } else if ch == 'H' {
      UnpackPack(bytes[..2]);
    }
  }

  /** A 16-bit number can also be read signed (h); serialize has no such field and ignores the letter. */
  lemma SignedField(b: seq<byte>)
    requires |b| == 2
    ensures Readable("h", b) && Encode("h", []) == []
    ensures exists i :: -0x8000 <= i < 0x8000 && Pack16(i) == b && Decode("h", b, 0) == Parsed([Number(i)], 2)
  {
    UnpackPack(b);
    assert "h"[1..] == "";
    assert Decode("", b[2..], 0) == Parsed([], 0);
  }

  // ---- Caps ----

  /** The cap in force after a stretch of the format. */
  function CapAfter(format: string, cap: nat): nat {
    if format == "" then cap else CapAfter(format[1..], NextCap(format[0], cap))
  }

  /** The number a digit run spells. */
  function Decimal(digits: string): nat
    requires forall k :: 0 <= k < |digits| ==> IsDigit(digits[k])
  {
    if digits == "" then 0
    else
      assert IsDigit(digits[|digits| - 1]);
      Decimal(digits[..|digits| - 1]) * 10 + (digits[|digits| - 1] as int - '0' as int)
  }

  lemma {:induction false} CapSnoc(format: string, ch: char, cap: nat)
    ensures CapAfter(format + [ch], cap) == NextCap(ch, CapAfter(format, cap))
  {
    if format != "" {
      assert (format + [ch])[1..] == format[1..] + [ch];
      CapSnoc(format[1..], ch, NextCap(format[0], cap));
    } else {
      assert (format + [ch])[1..] == "";
    }
  }

  /** The cap at a letter is what the digit run just before it spells, in 32 bits. */
  lemma {:induction false} CapIsDigitRun(before: string, digits: string, cap: nat)
    requires forall k :: 0 <= k < |digits| ==> IsDigit(digits[k])
    requires before != "" ==> !IsDigit(before[|before| - 1])
    requires before == "" ==> cap == 0
    ensures CapAfter(before + digits, cap) == Decimal(digits) % U32
  {
    if digits == "" {
      assert before + digits == before;
      if before != "" {
        var front := before[..|before| - 1];
        assert before == front + [before[|before| - 1]];
        CapSnoc(front, before[|before| - 1], cap);
      }
    } else {
      var front, last := digits[..|digits| - 1], digits[|digits| - 1];
      CapIsDigitRun(before, front, cap);
      assert before + digits == (before + front) + [last];
      CapSnoc(before + front, last, cap);
      ModTen(Decimal(front), last as int - '0' as int);
    }
  }

  lemma ModTen(a: nat, d: nat)
    ensures (a % U32 * 10 + d) % U32 == (a * 10 + d) % U32
  {
    assert a * 10 + d == a / U32 * 10 * U32 + (a % U32 * 10 + d);
  }

  /** A buffer that holds two formats holds the first, and after it the second. */
  lemma {:induction false} ReadableInTwo(a: string, b: string, bytes: seq<byte>, cap: nat)
    requires Readable(a + b, bytes)
    ensures Readable(a, bytes)
    ensures Readable(b, bytes[Decode(a, bytes, cap).used..])
    decreases |a|
  {
    if a == "" {
      assert a + b == b;
    } else {
      assert (a + b)[1..] == a[1..] + b;
      if IsParsed(a[0]) {
        var width := Width(a[0], bytes);
        ReadableInTwo(a[1..], b, bytes[width..], 0);
        DropTwice(bytes, width, Decode(a[1..], bytes[width..], 0).used);
      } else {
        ReadableInTwo(a[1..], b, bytes, NextCap(a[0], cap));
      }
    }
  }

  /** A format is read piece by piece: the second part goes on where the first one stopped, with
      nothing carried over but the cap. */
  lemma {:induction false} DecodeInTwo(a: string, b: string, bytes: seq<byte>, cap: nat)
    requires Readable(a + b, bytes) && Readable(a, bytes)
    requires Readable(b, bytes[Decode(a, bytes, cap).used..])
    ensures Decode(a + b, bytes, cap)
            == Then(Decode(a, bytes, cap),
                    Decode(b, bytes[Decode(a, bytes, cap).used..], CapAfter(a, cap)))
    decreases |a|
  {
    if a == "" {
      assert a + b == b;
    } else {
      assert (a + b)[1..] == a[1..] + b;
      if IsParsed(a[0]) {
        var later := bytes[Width(a[0], bytes)..];
        DecodeField(a + b, bytes, cap);
        DecodeField(a, bytes, cap);
        ReadableInTwo(a[1..], b, later, 0);
        DecodeInTwo(a[1..], b, later, 0);
        var one, first := Parsed([Value(a[0], cap, bytes)], Width(a[0], bytes)), Decode(a[1..], later, 0);
        DropTwice(bytes, one.used, first.used);
        ThenAssociates(one, first, Decode(b, later[first.used..], CapAfter(a, cap)));
      } else {
        DecodeInTwo(a[1..], b, bytes, NextCap(a[0], cap));
      }
    }
  }

  lemma DecodeField(format: string, bytes: seq<byte>, cap: nat)
    requires format != "" && IsParsed(format[0]) && Readable(format, bytes)
    ensures Decode(format, bytes, cap)
            == Then(Parsed([Value(format[0], cap, bytes)], Width(format[0], bytes)),
                    Decode(format[1..], bytes[Width(format[0], bytes)..], 0))
  {
  }

  lemma DropTwice<T>(s: seq<T>, i: nat, j: nat)
    requires i + j <= |s|
    ensures s[i..][j..] == s[i + j..]
  {
  }

  function Then(first: Parsed, second: Parsed): Parsed {
    Parsed(first.values + second.values, first.used + second.used)
  }

  lemma ThenAssociates(a: Parsed, b: Parsed, c: Parsed)
    ensures Then(Then(a, b), c) == Then(a, Then(b, c))
  {
  }

  /** Decode's own values, before any cap: the letters parse acts on, without digits. */
  function Letters(format: string): string {
    if format == "" then ""
    else if IsParsed(format[0]) then [format[0]] + Letters(format[1..])
    else Letters(format[1..])
  }

  /** Caps never move the cursor, and touch nothing but the texts, each of which is kept or cut; where
      it is cut CappedText says. */
  lemma {:induction false} CapsKeepSync(format: string, bytes: seq<byte>, cap: nat)
    requires Readable(format, bytes)
    ensures Readable(Letters(format), bytes)
    ensures var plain := Decode(Letters(format), bytes, 0);
            var capped := Decode(format, bytes, cap);
            && capped.used == plain.used && |capped.values| == |plain.values|
            && forall k :: 0 <= k < |plain.values| ==> SameOrCut(capped.values[k], plain.values[k])
    decreases |format|
  {
    if format != "" {
      if IsParsed(format[0]) {
        assert Letters(format)[1..] == Letters(format[1..]);
        CapsKeepSync(format[1..], bytes[Width(format[0], bytes)..], 0);
      } else {
        CapsKeepSync(format[1..], bytes, NextCap(format[0], cap));
      }
    }
  }

  ghost predicate SameOrCut(a: Arg, b: Arg) {
    a == b || (a.Text? && b.Text? && exists cap :: a.bytes == Capped(b.bytes, cap))
  }

  /** One capped text: the digits right before the 's' decide what is stored, the rest of the
      format goes on after the whole text. */
  lemma CappedText(before: string, digits: string, after: string, bytes: seq<byte>)
    requires forall k :: 0 <= k < |digits| ==> IsDigit(digits[k])
    requires before != "" ==> !IsDigit(before[|before| - 1])
    requires Readable((before + digits) + ("s" + after), bytes)
    ensures Readable(before + digits, bytes)
    ensures var first := Decode(before + digits, bytes, 0);
            var here := bytes[first.used..];
            && |here| >= 2
            && var len, cap := (here[0] as int) * 256 + here[1], Decimal(digits) % U32;
            && |here| >= 2 + len && Readable(after, here[2 + len..])
            && var stored := if cap > 0 && len > cap then here[2..2 + (cap - 1)] else here[2..2 + len];
            && var rest := Decode(after, here[2 + len..], 0);
            Decode((before + digits) + ("s" + after), bytes, 0)
            == Parsed(first.values + ([Text(stored)] + rest.values), first.used + (2 + len + rest.used))
  {
    TextAfter(before + digits, after, bytes);
    CapIsDigitRun(before, digits, 0);
  }

  /** The same with the cap that the format before the 's' leaves in force. */
  lemma TextAfter(head: string, after: string, bytes: seq<byte>)
    requires Readable(head + ("s" + after), bytes)
    ensures Readable(head, bytes)
    ensures var first, cap := Decode(head, bytes, 0), CapAfter(head, 0);
            var here := bytes[first.used..];
            && |here| >= 2
            && var len := (here[0] as int) * 256 + here[1];
            && |here| >= 2 + len && Readable(after, here[2 + len..])
            && var stored := if cap > 0 && len > cap then here[2..2 + (cap - 1)] else here[2..2 + len];
            && var rest := Decode(after, here[2 + len..], 0);
            Decode(head + ("s" + after), bytes, 0)
            == Parsed(first.values + ([Text(stored)] + rest.values), first.used + (2 + len + rest.used))
  {
    ReadableInTwo(head, "s" + after, bytes, 0);
    DecodeInTwo(head, "s" + after, bytes, 0);
    TextFirst(after, bytes[Decode(head, bytes, 0).used..], CapAfter(head, 0));
  }

  lemma TextFirst(after: string, here: seq<byte>, cap: nat)
    requires Readable("s" + after, here)
    ensures |here| >= 2
    ensures var len := (here[0] as int) * 256 + here[1];
            && |here| >= 2 + len && Readable(after, here[2 + len..])
            && var stored := if cap > 0 && len > cap then here[2..2 + (cap - 1)] else here[2..2 + len];
            && var rest := Decode(after, here[2 + len..], 0);
            Decode("s" + after, here, cap) == Parsed([Text(stored)] + rest.values, 2 + len + rest.used)
  {
    assert ("s" + after)[0] == 's' && ("s" + after)[1..] == after;
    DecodeField("s" + after, here, cap);
    StoredText(here, cap);
  }

  /** The bytes that parse stores of a text: all of them, or one less than the cap. */
  lemma StoredText(here: seq<byte>, cap: nat)
    requires |here| >= 2 && |here| >= 2 + (here[0] as int) * 256 + here[1]
    ensures var len := (here[0] as int) * 256 + here[1];
            Value('s', cap, here) == Text(if cap > 0 && len > cap then here[2..2 + (cap - 1)] else here[2..2 + len])
  {
    var len := (here[0] as int) * 256 + here[1];
    if cap > 0 && len > cap {
      assert here[2..2 + len][..cap - 1] == here[2..2 + (cap - 1)];
    }
  }
}
