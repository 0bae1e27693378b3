/** The sample tables of the Citizen Aqualand: depths and temperatures as decimal digits, a
    nibble each, three to a value, and an end marker behind each table. */
module Aqualand {
  import opened Bytes

  const SZ_HEADER: nat := 32
  const DEPTHS_END: byte := 0xEF
  const TEMPERATURES_END: byte := 0xFF

  // ---------- Nibbles ----------

  function Nibble(data: seq<byte>, k: nat): nat
    requires k < 2 * |data|
  {
    if k % 2 == 0 then data[k / 2] / 0x10 else data[k / 2] % 0x10
  }

  function Number(a: nat, b: nat, c: nat): nat {
    a * 100 + b * 10 + c
  }

  /** Three digits from nibble `k` on. */
  function ValueAt(data: seq<byte>, k: nat): nat
    requires k + 3 <= 2 * |data|
  {
    Number(Nibble(data, k), Nibble(data, k + 1), Nibble(data, k + 2))
  }

  /** The end marker is in one of the two bytes that a value from nibble `k` on touches. */
  predicate Marked(data: seq<byte>, k: nat, marker: byte)
    requires k + 3 <= 2 * |data|
  {
    data[k / 2] == marker || data[k / 2 + 1] == marker
  }

  // ---------- Reading ----------

  /** The values of a table, and the nibble where it stops. */
  datatype Table = Table(values: seq<nat>, stop: nat)

  function Unpacked(data: seq<byte>, k: nat, marker: byte): (t: Table)
    ensures k <= 2 * |data| ==> t.stop <= 2 * |data|
    ensures k + 3 * |t.values| <= t.stop <= k + 3 * |t.values| + 1
    decreases 2 * |data| - k
  {
    if k + 3 > 2 * |data| then Table([], k)
    else if Marked(data, k, marker) then Table([], k + k % 2)
    else
      var rest := Unpacked(data, k + 3, marker);
      Table([ValueAt(data, k)] + rest.values, rest.stop)
  }

  lemma UnpackedStep(data: seq<byte>, k: nat, marker: byte)
    ensures Unpacked(data, k, marker) == (
      if k + 3 > 2 * |data| then Table([], k)
      else if Marked(data, k, marker) then Table([], k + k % 2)
      else
        var rest := Unpacked(data, k + 3, marker);
        Table([ValueAt(data, k)] + rest.values, rest.stop))
  {
  }

  predicate Ends(data: seq<byte>, t: Table, marker: byte) {
    t.stop + 2 <= 2 * |data| && data[t.stop / 2] == marker
  }

  /** Both tables of a dive, or none if one has no end. */
  datatype Profile = Broken | Profile(depths: seq<nat>, temperatures: seq<nat>)

  function ProfileOf(data: seq<byte>): Profile {
    if |data| < SZ_HEADER then Broken
    else
      var depths := Unpacked(data, 2 * SZ_HEADER, DEPTHS_END);
      if !Ends(data, depths, DEPTHS_END) then Broken
      else
        var temperatures := Unpacked(data, depths.stop + 2, TEMPERATURES_END);
        if !Ends(data, temperatures, TEMPERATURES_END) then Broken
        else Profile(depths.values, temperatures.values)
  }

  /** The room that is made for the values. */
  function MaxCount(size: nat): nat
    requires size >= SZ_HEADER
  {
    (2 * (size - SZ_HEADER) + 2) / 3
  }

  /** Converts both tables, one behind the other, into an array that the size of the data
      alone makes large enough. */
  method UnpackTables(data: seq<byte>) returns (status: Status, samples: array<nat>, ndepths: nat, ntemperatures: nat)
    ensures status == if ProfileOf(data) == Broken then DataFormat else Success
    ensures fresh(samples) && (|data| >= SZ_HEADER ==> samples.Length == MaxCount(|data|))
    ensures status == Success ==>
              var p := ProfileOf(data);
              && ndepths == |p.depths| && ntemperatures == |p.temperatures|
              && ndepths + ntemperatures <= samples.Length
              && samples[..ndepths] == p.depths && samples[ndepths..ndepths + ntemperatures] == p.temperatures
  {
    hide Unpacked;
    ndepths, ntemperatures := 0, 0;
    if |data| < SZ_HEADER {
      samples := new nat[0];
      return DataFormat, samples, 0, 0;
    }
    samples := new nat[MaxCount(|data|)](_ => 0);
    var offset, n := UnpackTable(data, 2 * SZ_HEADER, DEPTHS_END, samples, 0);
    ndepths := n;
    if offset + 2 > 2 * |data| || data[offset / 2] != DEPTHS_END {
      return DataFormat, samples, ndepths, 0;
    }
    offset, n := UnpackTable(data, offset + 2, TEMPERATURES_END, samples, ndepths);
    ntemperatures := n - ndepths;
    if offset + 2 > 2 * |data| || data[offset / 2] != TEMPERATURES_END {
      return DataFormat, samples, ndepths, ntemperatures;
    }
    status := Success;
  }

  method UnpackTable(data: seq<byte>, start: nat, marker: byte, samples: array<nat>, nsamples: nat)
    returns (offset: nat, n: nat)
    requires SZ_HEADER <= |data| && 2 * SZ_HEADER + 3 * nsamples <= start <= 2 * |data|
    requires samples.Length == MaxCount(|data|)
    modifies samples
    ensures var t := Unpacked(data, start, marker);
      && offset == t.stop && n == nsamples + |t.values| <= samples.Length
      && samples[nsamples..n] == t.values && samples[..nsamples] == old(samples[..nsamples])
      && 2 * SZ_HEADER + 3 * n <= offset
  {
    hide ValueAt, Marked, Unpacked, MaxCount;
    RoomLeft(|data|, nsamples, start);
    ghost var t := Unpacked(data, start, marker);
    ghost var kept, values: seq<nat> := samples[..nsamples], [];
    offset, n := start, nsamples;
    while offset + 3 <= 2 * |data|
      invariant start <= offset <= 2 * |data| && 2 * SZ_HEADER + 3 * n <= offset
      invariant n == nsamples + |values| <= samples.Length && samples[..n] == kept + values
      invariant Follows(data, offset, marker, values, t)
    {
      FollowsStep(data, offset, marker, values, t);
      RoomLeft(|data|, n, offset);
      var marked, value := ReadValue(data, offset, marker);
      if marked {
        offset := offset + offset % 2;
        break;
      }
      n := StoreValue(samples, n, value);
      values := values + [value];
      offset := offset + 3;
      assert samples[..n] == kept + values;
    }
    if t != Table(values, offset) {
      FollowsStep(data, offset, marker, values, t);
    }
    assert samples[..n][nsamples..] == samples[nsamples..n] && samples[..n][..nsamples] == samples[..nsamples];
  }

  /** What has been read and what follows make up the table. */
  ghost predicate Follows(data: seq<byte>, k: nat, marker: byte, values: seq<nat>, t: Table) {
    var rest := Unpacked(data, k, marker);
    t.values == values + rest.values && t.stop == rest.stop
  }

  lemma FollowsStep(data: seq<byte>, k: nat, marker: byte, values: seq<nat>, t: Table)
    requires Follows(data, k, marker, values, t)
    ensures k + 3 > 2 * |data| ==> t == Table(values, k)
    ensures k + 3 <= 2 * |data| && Marked(data, k, marker) ==> t == Table(values, k + k % 2)
    ensures k + 3 <= 2 * |data| && !Marked(data, k, marker) ==>
              Follows(data, k + 3, marker, values + [ValueAt(data, k)], t)
  {
    hide ValueAt, Marked, Unpacked;
    UnpackedStep(data, k, marker);
    assert values + [] == values;
  }

  lemma RoomLeft(size: nat, n: nat, offset: nat)
    requires size >= SZ_HEADER && 2 * SZ_HEADER + 3 * n <= offset <= 2 * size
    ensures n <= MaxCount(size) && (offset + 3 <= 2 * size ==> n < MaxCount(size))
  {
  }

  /** Looks at the two bytes that a value touches. */
  method ReadValue(data: seq<byte>, offset: nat, marker: byte) returns (marked: bool, value: nat)
    requires offset + 3 <= 2 * |data|
    ensures marked == Marked(data, offset, marker) && (!marked ==> value == ValueAt(data, offset))
  {
    hide ValueAt, Number;
    var octet, nibble := offset / 2, offset % 2;
    var hi, lo := data[octet], data[octet + 1];
    marked, value := hi == marker || lo == marker, 0;
    if !marked {
      ValueByParity(data, offset);
      value := if nibble == 1 then Number(hi % 0x10, lo / 0x10, lo % 0x10) else Number(hi / 0x10, hi % 0x10, lo / 0x10);
    }
  }

  method StoreValue(samples: array<nat>, n: nat, value: nat) returns (n': nat)
    requires n < samples.Length
    modifies samples
    ensures n' == n + 1 && samples[..n'] == old(samples[..n]) + [value]
  {
    samples[n] := value;
    n' := n + 1;
  }

  lemma ValueByParity(data: seq<byte>, k: nat)
    requires k + 3 <= 2 * |data|
    ensures var hi, lo := data[k / 2], data[k / 2 + 1];
      ValueAt(data, k) == if k % 2 == 1 then Number(hi % 0x10, lo / 0x10, lo % 0x10)
                          else Number(hi / 0x10, hi % 0x10, lo / 0x10)
  {
  }

  // ---------- Packing ----------

  type Digits3 = x: nat | x < 1000 witness 0

  function DigitsOf(values: seq<Digits3>): (ns: seq<nat>)
    ensures |ns| == 3 * |values| && forall i | 0 <= i < |ns| :: ns[i] < 10
  {
    if values == [] then []
    else [values[0] / 100, values[0] / 10 % 10, values[0] % 10] + DigitsOf(values[1..])
  }

  function Paired(ns: seq<nat>): (s: seq<byte>)
    requires |ns| % 2 == 0 && forall i | 0 <= i < |ns| :: ns[i] < 0x10
    ensures 2 * |s| == |ns|
  {
    if ns == [] then [] else [ns[0] * 0x10 + ns[1]] + Paired(ns[2..])
  }

  lemma {:induction false} PairedNibble(ns: seq<nat>, k: nat)
    requires |ns| % 2 == 0 && (forall i | 0 <= i < |ns| :: ns[i] < 0x10) && k < |ns|
    ensures Nibble(Paired(ns), k) == ns[k]
    decreases |ns|
  {
    if k >= 2 {
      PairedNibble(ns[2..], k - 2);
      assert Paired(ns)[k / 2] == Paired(ns[2..])[(k - 2) / 2];
    }
  }

  /** An even number of nibbles, with one of padding where it is needed. */
  function Padded(ds: seq<nat>, pad: nat): (ns: seq<nat>)
    requires pad < 0x10 && forall i | 0 <= i < |ds| :: ds[i] < 10
    ensures |ns| % 2 == 0 && ds <= ns && |ns| <= |ds| + 1
    ensures forall i | 0 <= i < |ns| :: ns[i] < 0x10
  {
    if |ds| % 2 == 1 then ds + [pad] else ds
  }

  /** A table: the digits and the marker. */
  function Packed(values: seq<Digits3>, pad: nat, marker: byte): (s: seq<byte>)
    requires pad < 0x10
    ensures 3 * |values| <= 2 * (|s| - 1) <= 3 * |values| + 1
  {
    Paired(Padded(DigitsOf(values), pad)) + [marker]
  }

  /** In `data`, these values are stored from nibble `k` on. */
  ghost predicate Stored(data: seq<byte>, k: nat, values: seq<Digits3>) {
    && k + 3 * |values| <= 2 * |data|
    && forall i | 0 <= i < 3 * |values| :: Nibble(data, k + i) == DigitsOf(values)[i]
  }

  lemma PackedStores(values: seq<Digits3>, pad: nat, marker: byte, before: seq<byte>, after: seq<byte>)
    requires pad < 0x10
    ensures var data := before + Packed(values, pad, marker) + after;
      && Stored(data, 2 * |before|, values)
      && data[|before| + |Packed(values, pad, marker)| - 1] == marker
  {
    hide Stored, Paired, Padded, DigitsOf;
    var ns := Padded(DigitsOf(values), pad);
    Regrouped(before, Paired(ns), marker, after);
    PairedStores(values, ns, before, [marker] + after);
  }

  lemma PairedStores(values: seq<Digits3>, ns: seq<nat>, before: seq<byte>, after: seq<byte>)
    requires |ns| % 2 == 0 && (forall i | 0 <= i < |ns| :: ns[i] < 0x10) && DigitsOf(values) <= ns
    ensures Stored(before + (Paired(ns) + after), 2 * |before|, values)
  {
    hide Nibble, Paired, DigitsOf;
    forall i | 0 <= i < 3 * |values|
      ensures Nibble(before + (Paired(ns) + after), 2 * |before| + i) == DigitsOf(values)[i]
    {
      PairedNibbleInside(ns, before, after, i);
    }
  }

  lemma PairedNibbleInside(ns: seq<nat>, before: seq<byte>, after: seq<byte>, i: nat)
    requires |ns| % 2 == 0 && (forall i | 0 <= i < |ns| :: ns[i] < 0x10) && i < |ns|
    ensures Nibble(before + (Paired(ns) + after), 2 * |before| + i) == ns[i]
  {
    hide Nibble, Paired;
    PairedNibble(ns, i);
    NibbleBehind(before, Paired(ns) + after, i);
    NibbleBefore(Paired(ns), after, i);
  }

  lemma Regrouped(before: seq<byte>, digits: seq<byte>, marker: byte, after: seq<byte>)
    ensures before + (digits + [marker]) + after == before + (digits + ([marker] + after))
    ensures (before + (digits + [marker]) + after)[|before| + |digits|] == marker
  {
  }

  lemma NibbleBehind(before: seq<byte>, s: seq<byte>, i: nat)
    requires i < 2 * |s|
    ensures Nibble(before + s, 2 * |before| + i) == Nibble(s, i)
  {
    assert (2 * |before| + i) / 2 == |before| + i / 2;
  }

  lemma NibbleBefore(s: seq<byte>, after: seq<byte>, i: nat)
    requires i < 2 * |s|
    ensures Nibble(s + after, i) == Nibble(s, i)
  {
  }

  /** A table whose digits are stored and whose marker comes at the next whole byte is read
      back, whatever the padding. */
  lemma {:induction false} StoredIsRead(data: seq<byte>, k: nat, values: seq<Digits3>, marker: byte, end: nat)
    requires Stored(data, k, values) && marker >= 0xA0
    requires k + 3 * |values| <= 2 * end <= k + 3 * |values| + 1 && end < |data| && data[end] == marker
    requires k % 2 == 1 ==> data[k / 2] < 0xA0
    ensures Unpacked(data, k, marker) == Table(values, 2 * end)
    decreases |values|
  {
    hide Unpacked, ValueAt, Stored;
    UnpackedStep(data, k, marker);
    if values != [] {
      FirstDigits(data, k, values);
      StoredIsRead(data, k + 3, values[1..], marker, end);
      assert values == [values[0]] + values[1..];
    }
  }

  lemma FirstDigits(data: seq<byte>, k: nat, values: seq<Digits3>)
    requires Stored(data, k, values) && values != [] && (k % 2 == 1 ==> data[k / 2] < 0xA0)
    ensures k + 3 <= 2 * |data| && ValueAt(data, k) == values[0] && data[k / 2] < 0xA0 && data[k / 2 + 1] < 0xA0
    ensures Stored(data, k + 3, values[1..])
    ensures (k + 3) % 2 == 1 ==> data[(k + 3) / 2] < 0xA0
  {
    hide Nibble, ValueAt, DigitsOf;
    var ds, rest := DigitsOf(values), DigitsOf(values[1..]);
    DigitsStep(values);
    assert Nibble(data, k + 0) == ds[0] && Nibble(data, k + 1) == ds[1] && Nibble(data, k + 2) == ds[2];
    ValueOfDigits(data, k, values[0]);
    BytesOfDigits(data, k);
    forall i | 0 <= i < 3 * |values[1..]|
      ensures Nibble(data, k + 3 + i) == rest[i]
    {
      assert Nibble(data, k + (3 + i)) == ds[3 + i] == rest[i];
    }
  }

  lemma DigitsStep(values: seq<Digits3>)
    requires values != []
    ensures var ds, x := DigitsOf(values), values[0];
      && ds[0] == x / 100 && ds[1] == x / 10 % 10 && ds[2] == x % 10
      && forall i | 0 <= i < 3 * |values[1..]| :: ds[3 + i] == DigitsOf(values[1..])[i]
  {
  }

  lemma ValueOfDigits(data: seq<byte>, k: nat, x: nat)
    requires k + 3 <= 2 * |data| && x < 1000
    requires Nibble(data, k) == x / 100 && Nibble(data, k + 1) == x / 10 % 10 && Nibble(data, k + 2) == x % 10
    ensures ValueAt(data, k) == x
  {
    hide Nibble;
  }

  /** A byte whose upper nibble is a digit is no marker. */
  lemma BytesOfDigits(data: seq<byte>, k: nat)
    requires k + 3 <= 2 * |data| && Nibble(data, k) < 10 && Nibble(data, k + 1) < 10 && Nibble(data, k + 2) < 10
    requires k % 2 == 1 ==> data[k / 2] < 0xA0
    ensures data[k / 2] < 0xA0 && data[k / 2 + 1] < 0xA0
    ensures (k + 3) % 2 == 1 ==> data[(k + 3) / 2] < 0xA0
  {
    if k % 2 == 0 {
      assert (k + 2) / 2 == k / 2 + 1 && (k + 3) / 2 == k / 2 + 1;
    } else {
      assert (k + 1) / 2 == k / 2 + 1;
    }
  }

  /** Packing two tables behind a header and unpacking them gives the tables back, with any
      padding, and whatever comes behind them. */
  lemma PackedIsUnpacked(header: seq<byte>, depths: seq<Digits3>, temperatures: seq<Digits3>, pad: nat, pad': nat,
                         rest: seq<byte>)
    requires |header| == SZ_HEADER && pad < 0x10 && pad' < 0x10
    ensures ProfileOf(header + Packed(depths, pad, DEPTHS_END) + Packed(temperatures, pad', TEMPERATURES_END) + rest)
            == Profile(depths, temperatures)
  {
    hide Packed, Unpacked, Stored;
    var first, second := Packed(depths, pad, DEPTHS_END), Packed(temperatures, pad', TEMPERATURES_END);
    var data := header + first + second + rest;
    assert data == header + first + (second + rest);
    PackedStores(depths, pad, DEPTHS_END, header, second + rest);
    StoredIsRead(data, 2 * SZ_HEADER, depths, DEPTHS_END, SZ_HEADER + |first| - 1);
    PackedStores(temperatures, pad', TEMPERATURES_END, header + first, rest);
    StoredIsRead(data, 2 * (SZ_HEADER + |first|), temperatures, TEMPERATURES_END, SZ_HEADER + |first| + |second| - 1);
  }
}
