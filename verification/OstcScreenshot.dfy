/** The screenshot of the Heinrichs Weikamp OSTC: runs of pixels, column by column, turned
    into an image row by row. */
module OstcScreenshot {
  import opened Bytes
  import opened Buffer

  const WIDTH: nat := 320
  const HEIGHT: nat := 240
  const NPIXELS: nat := 76800
  const BLACK: byte := 0x00
  const WHITE: byte := 0xFF

  datatype Format = Raw | Rgb16 | Rgb24

  datatype Pixel = Pixel(high: byte, low: byte)

  // ---------- Runs of pixels ----------

  /** One run at the head of the stream: the bytes it takes, its colour and its length. */
  datatype RunLength = Starved | RunLength(nbytes: nat, pixel: Pixel, count: nat)

  function RunAt(s: seq<byte>): (r: RunLength)
    ensures r.RunLength? ==> 1 <= r.nbytes <= |s| && r.count > 0
  {
    if s == [] then Starved
    else if s[0] < 0x80 then RunLength(1, Pixel(BLACK, BLACK), s[0] as int + 1)
    else if s[0] >= 0xC0 then RunLength(1, Pixel(WHITE, WHITE), s[0] - 0xC0 + 1)
    else if |s| < 3 then Starved
    else RunLength(3, Pixel(s[1], s[2]), s[0] - 0x80 + 1)
  }

  function Copies(p: Pixel, n: nat): (s: seq<Pixel>)
    ensures |s| == n
  {
    seq(n, _ => p)
  }

  /** How expanding a stream ended, the pixels in it, and how many bytes they took. */
  datatype Expansion = Expansion(status: Status, pixels: seq<Pixel>, used: nat)

  /** The pixels of a stream, of which `n` are there already. */
  function Expanded(s: seq<byte>, n: nat): (e: Expansion)
    requires n <= NPIXELS
    ensures e.used <= |s| && n + |e.pixels| <= NPIXELS
    ensures e.status == Success <==> n + |e.pixels| == NPIXELS
    ensures e.status == Success || e.status == Timeout || e.status == DataFormat
    decreases |s|
  {
    if n == NPIXELS then Expansion(Success, [], 0)
    else
      var r := RunAt(s);
      if r.Starved? then Expansion(Timeout, [], 0)
      else if n + r.count > NPIXELS then Expansion(DataFormat, [], 0)
      else
        var rest := Expanded(s[r.nbytes..], n + r.count);
        Expansion(rest.status, Copies(r.pixel, r.count) + rest.pixels, r.nbytes + rest.used)
  }

  lemma ExpandedStep(s: seq<byte>, n: nat)
    requires n <= NPIXELS
    ensures Expanded(s, n) == (
      var r := RunAt(s);
      if n == NPIXELS then Expansion(Success, [], 0)
      else if r.Starved? then Expansion(Timeout, [], 0)
      else if n + r.count > NPIXELS then Expansion(DataFormat, [], 0)
      else
        var rest := Expanded(s[r.nbytes..], n + r.count);
        Expansion(rest.status, Copies(r.pixel, r.count) + rest.pixels, r.nbytes + rest.used))
  {
  }

  /** The bytes that were used are a whole screenshot themselves. */
  lemma {:induction false} UsedExpandsAlike(s: seq<byte>, n: nat)
    requires n <= NPIXELS && Expanded(s, n).status == Success
    ensures Expanded(s[..Expanded(s, n).used], n) == Expanded(s, n)
    decreases |s|
  {
    hide Expanded, RunAt, Copies;
    var used := s[..Expanded(s, n).used];
    ExpandedStep(s, n);
    ExpandedStep(used, n);
    if n < NPIXELS {
      var r := RunAt(s);
      RunAtPrefix(s, used);
      UsedExpandsAlike(s[r.nbytes..], n + r.count);
      assert used[r.nbytes..] == s[r.nbytes..][..Expanded(s, n).used - r.nbytes];
    }
  }

  lemma RunAtPrefix(s: seq<byte>, t: seq<byte>)
    requires t <= s && RunAt(s).RunLength? && RunAt(s).nbytes <= |t|
    ensures RunAt(t) == RunAt(s)
  {
  }

  // ---------- The image ----------

  function Bpp(f: Format): nat {
    match f
    case Raw => 0
    case Rgb16 => 2
    case Rgb24 => 3
  }

  /** The bytes of a pixel in the image. */
  function Colour(p: Pixel, f: Format): (s: seq<byte>)
    ensures |s| == Bpp(f)
  {
    match f
    case Raw => []
    case Rgb16 => [p.high, p.low]
    case Rgb24 =>
      var value: nat := p.high as int * 0x100 + p.low;
      var r, g, b := value / 0x800, value / 0x20 % 0x40, value % 0x20;
      [255 * r / 31, 255 * g / 63, 255 * b / 31]
  }

  /** Where in the rows the `k`-th pixel of the columns goes. */
  function Place(k: nat): (p: nat)
    requires k < NPIXELS
    ensures p < NPIXELS
  {
    k % HEIGHT * WIDTH + k / HEIGHT
  }

  /** The index of its first byte. */
  function Offset(k: nat, f: Format): (p: nat)
    requires k < NPIXELS
    ensures p == Place(k) * Bpp(f) && p + Bpp(f) <= NPIXELS * Bpp(f)
  {
    match f
    case Raw => 0
    case Rgb16 => Place(k) * 2
    case Rgb24 => Place(k) * 3
  }

  /** Every place is taken by one pixel only. */
  lemma PlacesDiffer(k: nat, m: nat)
    requires k < NPIXELS && m < NPIXELS && k != m
    ensures Place(k) != Place(m)
  {
    assert k == k / HEIGHT * HEIGHT + k % HEIGHT && m == m / HEIGHT * HEIGHT + m % HEIGHT;
  }

  /** Every place is taken: pixel (x, y) is the one at `x * HEIGHT + y` of the columns. */
  lemma PlaceOfPixel(x: nat, y: nat)
    requires x < WIDTH && y < HEIGHT
    ensures x * HEIGHT + y < NPIXELS && Place(x * HEIGHT + y) == y * WIDTH + x
  {
    var k := x * HEIGHT + y;
    assert k / HEIGHT == x && k % HEIGHT == y;
  }

  /** The bytes at one place of an image. */
  function At(image: seq<byte>, base: nat, f: Format, k: nat): seq<byte>
    requires k < NPIXELS && base + NPIXELS * Bpp(f) <= |image|
  {
    image[base + Offset(k, f)..base + Offset(k, f) + Bpp(f)]
  }

  /** The first pixels have been drawn, and the others are as they were. */
  ghost predicate Drawn(image: seq<byte>, before: seq<byte>, base: nat, f: Format, pixels: seq<Pixel>)
    requires |image| == |before| && base + NPIXELS * Bpp(f) <= |image|
  {
    forall k | 0 <= k < NPIXELS ::
      At(image, base, f, k) == if k < |pixels| then Colour(pixels[k], f) else At(before, base, f, k)
  }

  lemma OffsetsApart(k: nat, m: nat, f: Format)
    requires k < NPIXELS && m < NPIXELS && k != m
    ensures Offset(k, f) + Bpp(f) <= Offset(m, f) || Offset(m, f) + Bpp(f) <= Offset(k, f)
  {
    hide Place;
    PlacesDiffer(k, m);
  }

  /** One pixel is stored over what was at its place. */
  ghost predicate Plotted(image: seq<byte>, image': seq<byte>, at: nat, bytes: seq<byte>) {
    && |image'| == |image|
    && forall i | 0 <= i < |image| ::
         image'[i] == if at <= i < at + |bytes| then bytes[i - at] else image[i]
  }

  lemma PlottedAt(image: seq<byte>, image': seq<byte>, base: nat, f: Format, n: nat, bytes: seq<byte>, k: nat)
    requires n < NPIXELS && k < NPIXELS && base + NPIXELS * Bpp(f) <= |image| && |bytes| == Bpp(f)
    requires Plotted(image, image', base + Offset(n, f), bytes)
    ensures At(image', base, f, k) == if k == n then bytes else At(image, base, f, k)
  {
    hide Place, Offset, Bpp;
    if k != n {
      OffsetsApart(k, n, f);
    }
  }

  lemma DrawnMore(image: seq<byte>, image': seq<byte>, before: seq<byte>, base: nat, f: Format, pixels: seq<Pixel>,
                  p: Pixel)
    requires |image'| == |image| == |before| && base + NPIXELS * Bpp(f) <= |image| && |pixels| < NPIXELS
    requires Drawn(image, before, base, f, pixels)
    requires Plotted(image, image', base + Offset(|pixels|, f), Colour(p, f))
    ensures Drawn(image', before, base, f, pixels + [p])
  {
    hide Colour, Place, Offset, Bpp, At, Plotted;
    var n := |pixels|;
    forall k | 0 <= k < NPIXELS
      ensures At(image', base, f, k) == if k < n + 1 then Colour((pixels + [p])[k], f) else At(before, base, f, k)
    {
      PlottedAt(image, image', base, f, n, Colour(p, f), k);
    }
  }

  // ---------- Receiving ----------

  /** What the buffer holds once these bytes have been received and these pixels expanded. */
  ghost predicate Holds(contents: seq<byte>, f: Format, raw: seq<byte>, pixels: seq<Pixel>) {
    if f.Raw? then contents == raw
    else |contents| == NPIXELS * Bpp(f) && Drawn(contents, Zeros(NPIXELS * Bpp(f)), 0, f, pixels)
  }

  /** Stores bytes over the contents of a buffer. */
  method Plot(buffer: DcBuffer, at: nat, bytes: seq<byte>)
    requires buffer.Valid() && at + |bytes| <= buffer.size
    modifies buffer.data
    ensures buffer.Valid() && Plotted(old(buffer.Contents()), buffer.Contents(), at, bytes)
  {
    Store(buffer.data, buffer.offset + at, bytes);
  }

  /** Draws a run of pixels, walking down the columns. */
  method DrawRun(buffer: DcBuffer, f: Format, p: Pixel, count: nat, x: nat, y: nat, ghost raw: seq<byte>,
                 ghost pixels: seq<Pixel>)
    returns (x': nat, y': nat)
    requires buffer.Valid() && !f.Raw? && Holds(buffer.Contents(), f, raw, pixels)
    requires |pixels| + count <= NPIXELS && |pixels| == x * HEIGHT + y && y < HEIGHT
    modifies buffer.data
    ensures buffer.Valid() && Holds(buffer.Contents(), f, raw, pixels + Copies(p, count))
    ensures |pixels| + count == x' * HEIGHT + y' && y' < HEIGHT
  {
    hide Colour, Drawn, Plotted, DcBuffer.Contents, Offset, Place;
    x', y' := x, y;
    ghost var drawn := pixels;
    for i := 0 to count
      invariant buffer.Valid() && drawn == pixels + Copies(p, i)
      invariant |drawn| == x' * HEIGHT + y' && y' < HEIGHT
      invariant Holds(buffer.Contents(), f, raw, drawn)
    {
      PlaceOfPixel(x', y');
      var offset := (y' * WIDTH + x') * Bpp(f);
      assert offset == Offset(|drawn|, f);
      ghost var before := buffer.Contents();
      Plot(buffer, offset, Colour(p, f));
      DrawnMore(before, buffer.Contents(), Zeros(NPIXELS * Bpp(f)), 0, f, drawn, p);
      drawn := drawn + [p];
      assert drawn == pixels + Copies(p, i + 1);
      y' := y' + 1;
      if y' == HEIGHT {
        x', y' := x' + 1, 0;
      }
    }
  }

  /** Stores one run in the format asked for. */
  method StoreRun(buffer: DcBuffer, f: Format, input: seq<byte>, at: nat, r: RunLength, x: nat, y: nat,
                  ghost pixels: seq<Pixel>)
    returns (ok: bool, x': nat, y': nat)
    requires buffer.Valid() && r.RunLength? && at + r.nbytes <= |input| && |pixels| + r.count <= NPIXELS
    requires Holds(buffer.Contents(), f, input[..at], pixels)
    requires !f.Raw? ==> |pixels| == x * HEIGHT + y && y < HEIGHT
    modifies buffer, buffer.data
    ensures buffer.Valid() && (buffer.data == old(buffer.data) || fresh(buffer.data))
    ensures buffer.plentiful ==> ok
    ensures ok ==> Holds(buffer.Contents(), f, input[..at + r.nbytes], pixels + Copies(r.pixel, r.count))
    ensures ok && !f.Raw? ==> |pixels| + r.count == x' * HEIGHT + y' && y' < HEIGHT
  {
    hide Holds, DcBuffer.Contents;
    ok, x', y' := true, x, y;
    if f.Raw? {
      ghost var before := buffer.Contents();
      ok := buffer.Append(input[at..at + r.nbytes]);
      if ok {
        RawHeld(before, f, input, at, r.nbytes, pixels, pixels + Copies(r.pixel, r.count), buffer.Contents());
      }
    } else {
      x', y' := DrawRun(buffer, f, r.pixel, r.count, x, y, input[..at], pixels);
      RawIgnored(buffer.Contents(), f, input[..at], input[..at + r.nbytes], pixels + Copies(r.pixel, r.count));
    }
  }

  /** Receives a screenshot. The raw format keeps the bytes as they came, the others the
      image they stand for; what had come before a failure is kept too. */
  method Screenshot(buffer: DcBuffer, f: Format, input: seq<byte>) returns (status: Status)
    requires buffer.Valid()
    modifies buffer, buffer.data
    ensures buffer.Valid()
    ensures status == NoMemory ==> !buffer.plentiful
    ensures status != NoMemory ==>
              var e := Expanded(input, 0);
              status == e.status && Holds(buffer.Contents(), f, input[..e.used], e.pixels)
  {
    hide Holds, Expanded, RunAt, Copies, DcBuffer.Contents;
    buffer.Clear();
    var ok;
    if f.Raw? {
      ok := buffer.Reserve(4096);
    } else {
      ok := buffer.Resize(NPIXELS * Bpp(f));
    }
    if !ok {
      return NoMemory;
    }
    NothingHeld(buffer.Contents(), f, input);
    var x: nat, y: nat, npixels: nat, at: nat := 0, 0, 0, 0;
    ghost var e, pixels := Expanded(input, 0), [];
    while npixels < NPIXELS
      invariant buffer.Valid() && (buffer.data == old(buffer.data) || fresh(buffer.data))
      invariant npixels == |pixels| <= NPIXELS && at <= |input|
      invariant !f.Raw? ==> npixels == x * HEIGHT + y && y < HEIGHT
      invariant Holds(buffer.Contents(), f, input[..at], pixels)
      invariant var rest := Expanded(input[at..], npixels);
        e.status == rest.status && e.pixels == pixels + rest.pixels && e.used == at + rest.used
      decreases |input| - at
    {
      ExpandedStep(input[at..], npixels);
      var r := RunAt(input[at..]);
      if r.Starved? {
        NoneMore(pixels);
        return Timeout;
      }
      if npixels + r.count > NPIXELS {
        NoneMore(pixels);
        return DataFormat;
      }
      TakenMore(input, at, r.nbytes, pixels, Copies(r.pixel, r.count),
                Expanded(input[at + r.nbytes..], npixels + r.count).pixels);
      ok, x, y := StoreRun(buffer, f, input, at, r, x, y, pixels);
      if !ok {
        return NoMemory;
      }
      pixels := pixels + Copies(r.pixel, r.count);
      at, npixels := at + r.nbytes, npixels + r.count;
    }
    ExpandedStep(input[at..], npixels);
    NoneMore(pixels);
    status := Success;
  }

  lemma NoneMore(pixels: seq<Pixel>)
    ensures pixels + [] == pixels
  {
  }

  lemma NothingHeld(contents: seq<byte>, f: Format, input: seq<byte>)
    requires contents == if f.Raw? then [] else Zeros(NPIXELS * Bpp(f))
    ensures Holds(contents, f, input[..0], [])
    ensures input[0..] == input && forall s: seq<Pixel> :: [] + s == s
  {
  }

  lemma TakenMore(input: seq<byte>, at: nat, n: nat, pixels: seq<Pixel>, more: seq<Pixel>, rest: seq<Pixel>)
    requires at + n <= |input|
    ensures input[at..][n..] == input[at + n..] && input[..at] + input[at..at + n] == input[..at + n]
    ensures pixels + (more + rest) == pixels + more + rest
  {
  }

  lemma RawHeld(before: seq<byte>, f: Format, input: seq<byte>, at: nat, n: nat, pixels: seq<Pixel>, more: seq<Pixel>,
                after: seq<byte>)
    requires f.Raw? && at + n <= |input| && Holds(before, f, input[..at], pixels)
    requires after == before + input[at..at + n]
    ensures Holds(after, f, input[..at + n], more)
  {
  }

  lemma RawIgnored(contents: seq<byte>, f: Format, raw: seq<byte>, more: seq<byte>, pixels: seq<Pixel>)
    requires !f.Raw? && Holds(contents, f, raw, pixels)
    ensures Holds(contents, f, more, pixels)
  {
  }

  // ---------- The finished screenshot ----------

  /** Pixel (x, y) of the image is the one at `x * HEIGHT + y` of the runs. */
  lemma ImageIsTransposed(image: seq<byte>, f: Format, raw: seq<byte>, pixels: seq<Pixel>, x: nat, y: nat)
    requires !f.Raw? && Holds(image, f, raw, pixels) && |pixels| == NPIXELS && x < WIDTH && y < HEIGHT
    ensures x * HEIGHT + y < NPIXELS && (y * WIDTH + x + 1) * Bpp(f) <= |image|
    ensures image[(y * WIDTH + x) * Bpp(f)..(y * WIDTH + x + 1) * Bpp(f)] == Colour(pixels[x * HEIGHT + y], f)
  {
    hide Colour;
    PlaceOfPixel(x, y);
    var k := x * HEIGHT + y;
    assert At(image, 0, f, k) == Colour(pixels[k], f);
    assert (y * WIDTH + x) * Bpp(f) == Offset(k, f);
  }

  /** Expanding what the raw format kept gives the image of the other formats. */
  lemma RawIsEnough(input: seq<byte>, f: Format, kept: seq<byte>, image: seq<byte>)
    requires Expanded(input, 0).status == Success
    requires Holds(kept, Raw, input[..Expanded(input, 0).used], Expanded(input, 0).pixels)
    requires Holds(image, f, input[..Expanded(input, 0).used], Expanded(input, 0).pixels)
    ensures Expanded(kept, 0).status == Success && Holds(image, f, kept, Expanded(kept, 0).pixels)
  {
    hide Expanded, Drawn;
    UsedExpandsAlike(input, 0);
  }
}
