/** Splitting page content into overlapping windows (packages/rag-core/src/chunker.ts). */
module ChunkWindows {
  import opened Numbers
  import opened Text

  const CHARS_PER_TOKEN: nat := 4

  datatype Options = Options(max: nat, overlap: nat)

  /** What option normalisation guarantees: a positive window and an overlap smaller than it. */
  predicate Normal(o: Options) { o.overlap < o.max }

  function NormalizeChunkOptions(max: Number, overlap: Number): (o: Options)
    ensures Normal(o)
    ensures max.Finite? && max.value >= 1.0 ==> o.max as real <= max.value < (o.max + 1) as real
    ensures max.Finite? && 0.0 < max.value < 1.0 ==> o.max == 1
    ensures (max.NotFinite? || max.value <= 0.0) ==> o.max == 512
    ensures overlap.Finite? && overlap.value >= 0.0 && overlap.value < o.max as real ==>
      o.overlap as real <= overlap.value < (o.overlap + 1) as real
    ensures overlap.Finite? && overlap.value >= o.max as real ==> o.overlap == o.max - 1
    ensures (overlap.NotFinite? || overlap.value < 0.0) ==> o.overlap == if 64 < o.max then 64 else o.max - 1
  {
    var m := if max.Finite? && max.value > 0.0 then (if max.value.Floor < 1 then 1 else max.value.Floor) else 512;
    var raw := if overlap.Finite? && overlap.value >= 0.0 then overlap.value.Floor else 64;
    Options(m, if raw < m - 1 then raw else m - 1)
  }

  /** The length of a window and the distance between window starts, in code units. */
  function Width(o: Options): nat { CHARS_PER_TOKEN * o.max }

  function Stride(o: Options): (s: nat)
    requires Normal(o)
    ensures s > 0
  {
    CHARS_PER_TOKEN * (o.max - o.overlap)
  }

  function StartOf(i: nat, o: Options): nat
    requires Normal(o)
  {
    if i == 0 then 0 else StartOf(i - 1, o) + Stride(o)
  }

  function EndOf(i: nat, o: Options, length: nat): nat
    requires Normal(o)
  {
    if StartOf(i, o) + Width(o) < length then StartOf(i, o) + Width(o) else length
  }

  /** The windows from the i-th to the first that reaches the end of the text. */
  function CountFrom(i: nat, length: nat, o: Options): (n: nat)
    requires Normal(o)
    ensures n > 0
    decreases length - StartOf(i, o)
  {
    if EndOf(i, o, length) == length then 1 else 1 + CountFrom(i + 1, length, o)
  }

  function WindowCount(length: nat, o: Options): nat
    requires Normal(o)
  {
    if length == 0 then 0 else CountFrom(0, length, o)
  }

  /** A window starts inside the text, and it is the last one exactly when it reaches the end. */
  lemma {:induction false} StartsInside(length: nat, o: Options, i: nat)
    requires Normal(o) && i < WindowCount(length, o)
    ensures StartOf(i, o) < EndOf(i, o, length)
    ensures EndOf(i, o, length) == length <==> i == WindowCount(length, o) - 1
    ensures WindowCount(length, o) == i + CountFrom(i, length, o)
  {
    if i > 0 { StartsInside(length, o, i - 1); }
  }

  // ---- The closed forms ----

  lemma {:induction false} StartIs(i: nat, o: Options)
    requires Normal(o)
    ensures StartOf(i, o) == i * CHARS_PER_TOKEN * (o.max - o.overlap)
  {
    if i > 0 {
      StartIs(i - 1, o);
      Distributes(i, CHARS_PER_TOKEN * (o.max - o.overlap));
    }
  }

  lemma Distributes(i: int, s: int)
    ensures i * s == (i - 1) * s + s
  {
  }

  lemma Monotone(x: int, y: int, s: nat)
    requires x <= y
    ensures x * s <= y * s
  {
    assert (y - x) * s >= 0;
  }

  lemma CeilingDivision(d: nat, s: nat, q: nat)
    requires s > 0 && q >= 1 && (q - 1) * s < d <= q * s
    ensures (d + s - 1) / s == q
  {
    Distributes(q, s);
    var q', r' := (d + s - 1) / s, (d + s - 1) % s;
    assert d + s - 1 == q' * s + r';
    if q' < q {
      Monotone(q' + 1, q, s);
    } else if q' > q {
      Monotone(q + 1, q', s);
    }
  }

  lemma StartAsProduct(i: nat, o: Options, s: nat)
    requires Normal(o) && s == Stride(o)
    ensures StartOf(i, o) == i * s
  {
    StartIs(i, o);
    assert i * CHARS_PER_TOKEN * (o.max - o.overlap) == i * (CHARS_PER_TOKEN * (o.max - o.overlap));
  }

  /** One window, and as many more as strides cover what lies beyond the first: an exact ceiling. */
  lemma WindowCountFormula(length: nat, o: Options, s: nat, d: int)
    requires Normal(o) && length > 0 && s == Stride(o) && d == length - Width(o)
    ensures WindowCount(length, o) == if d <= 0 then 1 else (d + s - 1) / s + 1
  {
    var i := WindowCount(length, o) - 1;
    StartsInside(length, o, i);
    if i > 0 {
      StartsInside(length, o, i - 1);
      StartAsProduct(i, o, s);
      StartAsProduct(i - 1, o, s);
      CeilingDivision(d, s, i);
    }
  }

  function WindowAt(content: Text, o: Options, i: nat): Text
    requires Normal(o) && i < WindowCount(|content|, o)
  {
    StartsInside(|content|, o, i);
    content[StartOf(i, o)..EndOf(i, o, |content|)]
  }

  /** The first n windows. */
  function Windows(content: Text, o: Options, n: nat): (ws: seq<Text>)
    requires Normal(o) && n <= WindowCount(|content|, o)
    ensures |ws| == n
  {
    if n == 0 then [] else Windows(content, o, n - 1) + [WindowAt(content, o, n - 1)]
  }

  function AllWindows(content: Text, o: Options): seq<Text>
    requires Normal(o)
  {
    Windows(content, o, WindowCount(|content|, o))
  }

  function NonBlank(ws: seq<Text>): seq<Text> {
    if ws == [] then []
    else NonBlank(ws[..|ws| - 1]) + if Blank(ws[|ws| - 1]) then [] else [ws[|ws| - 1]]
  }

  /** The state of the loop before window i. */
  predicate CutTo(content: Text, o: Options, i: nat, start: nat, chunks: seq<Text>)
    requires Normal(o)
  {
    && i < WindowCount(|content|, o)
    && start == StartOf(i, o) < |content|
    && chunks == NonBlank(Windows(content, o, i))
  }

  function Appended(chunks: seq<Text>, chunk: Text): seq<Text> { if Blank(chunk) then chunks else chunks + [chunk] }

  lemma NextStart(length: nat, o: Options, i: nat, end: nat)
    requires Normal(o) && i < WindowCount(length, o) && end == EndOf(i, o, length) && end < length
    ensures i + 1 < WindowCount(length, o)
    ensures StartOf(i, o) + 1 < end - CHARS_PER_TOKEN * o.overlap == StartOf(i + 1, o) < length
  {
    StartsInside(length, o, i);
    StartsInside(length, o, i + 1);
  }

  /** What one iteration does; the maximum in the code never falls back on `start + 1`. */
  lemma CutOne(content: Text, o: Options, i: nat, start: nat, end: nat, chunks: seq<Text>)
    requires Normal(o) && CutTo(content, o, i, start, chunks)
    requires end == if start + Width(o) < |content| then start + Width(o) else |content|
    ensures end == |content| ==> Appended(chunks, content[start..end]) == NonBlank(AllWindows(content, o))
    ensures end < |content| ==> start + 1 < end - CHARS_PER_TOKEN * o.overlap
    ensures end < |content| ==>
      CutTo(content, o, i + 1, end - CHARS_PER_TOKEN * o.overlap, Appended(chunks, content[start..end]))
  {
    StartsInside(|content|, o, i);
    if end < |content| { NextStart(|content|, o, i, end); }
  }

  method SplitContentByTokenWindow(content: Text, o: Options) returns (chunks: seq<Text>)
    requires Normal(o)
    ensures chunks == if Blank(content) then [] else NonBlank(AllWindows(content, o))
  {
    if Blank(content) {
      return [];
    }
    var maxChars, overlapChars := o.max * CHARS_PER_TOKEN, o.overlap * CHARS_PER_TOKEN;
    chunks := [];
    var start := 0;
    ghost var i := 0;
    while start < |content|
      invariant CutTo(content, o, i, start, chunks)
      decreases |content| - start
    {
      var end := if start + maxChars < |content| then start + maxChars else |content|;
      CutOne(content, o, i, start, end, chunks);
      var chunk := content[start..end];
      if !Blank(chunk) {
        chunks := chunks + [chunk];
      }
      if end == |content| {
        break;
      }
      start := if start + 1 > end - overlapChars then start + 1 else end - overlapChars;
      i := i + 1;
    }
  }

  // ---- The theorems ----

  lemma {:induction false} WindowsAt(content: Text, o: Options, n: nat, i: nat)
    requires Normal(o) && i < n <= WindowCount(|content|, o)
    ensures Windows(content, o, n)[i] == WindowAt(content, o, i)
  {
    if i < n - 1 { WindowsAt(content, o, n - 1, i); }
  }

  /** Consecutive windows share exactly the overlap: the end of one is the start of the next. */
  lemma WindowsOverlap(content: Text, o: Options, i: nat)
    requires Normal(o) && i + 1 < WindowCount(|content|, o)
    ensures var a, b, n := WindowAt(content, o, i), WindowAt(content, o, i + 1), CHARS_PER_TOKEN * o.overlap;
      |a| == Width(o) && n < |b| && a[|a| - n..] == b[..n]
    ensures StartOf(i + 1, o) == EndOf(i, o, |content|) - CHARS_PER_TOKEN * o.overlap
  {
    StartsInside(|content|, o, i);
    StartsInside(|content|, o, i + 1);
    var n := CHARS_PER_TOKEN * o.overlap;
    assert StartOf(i + 1, o) == StartOf(i, o) + Stride(o);
    SliceEnds(content, StartOf(i, o), EndOf(i, o, |content|), StartOf(i + 1, o));
    SliceStarts(content, StartOf(i + 1, o), EndOf(i + 1, o, |content|), EndOf(i, o, |content|));
  }

  lemma SliceEnds(content: Text, from: nat, to: nat, mid: nat)
    requires from <= mid <= to <= |content|
    ensures content[from..to][|content[from..to]| - (to - mid)..] == content[mid..to]
  {
  }

  lemma SliceStarts(content: Text, from: nat, to: nat, mid: nat)
    requires from <= mid <= to <= |content|
    ensures content[from..to][..mid - from] == content[from..mid]
  {
  }

  /** The windows with the overlap taken off all but the first. */
  function Rejoined(ws: seq<Text>, overlap: nat): Text {
    if ws == [] then []
    else
      var w := ws[|ws| - 1];
      Rejoined(ws[..|ws| - 1], overlap) + if |ws| == 1 then w else if |w| < overlap then [] else w[overlap..]
  }

  lemma WindowAfterOverlap(content: Text, o: Options, i: nat, k: nat)
    requires Normal(o) && i + 1 < WindowCount(|content|, o) && k == CHARS_PER_TOKEN * o.overlap
    ensures k < |WindowAt(content, o, i + 1)| && EndOf(i, o, |content|) <= EndOf(i + 1, o, |content|)
    ensures WindowAt(content, o, i + 1)[k..] == content[EndOf(i, o, |content|)..EndOf(i + 1, o, |content|)]
  {
    StartsInside(|content|, o, i);
    StartsInside(|content|, o, i + 1);
    WindowsOverlap(content, o, i);
  }

  lemma Rejoin(content: Text, a: nat, b: nat)
    requires a <= b <= |content|
    ensures content[..a] + content[a..b] == content[..b]
  {
  }

  lemma {:induction false} RejoinedIs(content: Text, o: Options, n: nat, k: nat)
    requires Normal(o) && 1 <= n <= WindowCount(|content|, o) && k == CHARS_PER_TOKEN * o.overlap
    ensures Rejoined(Windows(content, o, n), k) == content[..EndOf(n - 1, o, |content|)]
    decreases n
  {
    RejoinedStep(Windows(content, o, n - 1), WindowAt(content, o, n - 1), k);
    if n > 1 {
      RejoinedIs(content, o, n - 1, k);
      WindowAfterOverlap(content, o, n - 2, k);
      Rejoin(content, EndOf(n - 2, o, |content|), EndOf(n - 1, o, |content|));
    } else {
      StartsInside(|content|, o, 0);
    }
  }

  lemma RejoinedStep(ws: seq<Text>, w: Text, k: nat)
    ensures ws == [] ==> Rejoined(ws + [w], k) == w
    ensures ws != [] && k <= |w| ==> Rejoined(ws + [w], k) == Rejoined(ws, k) + w[k..]
  {
    assert (ws + [w])[..|ws|] == ws;
    assert ws == [] ==> Rejoined(ws, k) == [] && [] + w == w;
  }

  /** Removing the overlaps gives the content back. */
  lemma WindowsRebuildTheContent(content: Text, o: Options)
    requires Normal(o)
    ensures Rejoined(AllWindows(content, o), CHARS_PER_TOKEN * o.overlap) == content
  {
    var n := WindowCount(|content|, o);
    if n > 0 {
      RejoinedIs(content, o, n, CHARS_PER_TOKEN * o.overlap);
      StartsInside(|content|, o, n - 1);
    }
  }

  lemma {:induction false} KeptIff(ws: seq<Text>, w: Text)
    ensures w in NonBlank(ws) <==> w in ws && !Blank(w)
  {
    if ws != [] {
      KeptIff(ws[..|ws| - 1], w);
      assert ws == ws[..|ws| - 1] + [ws[|ws| - 1]];
    }
  }

  /** Every character that is not white space is in some chunk. */
  lemma NothingIsLeftOut(content: Text, o: Options, p: nat)
    requires Normal(o) && p < |content| && !IsSpace(content[p])
    ensures !Blank(content)
    ensures exists i | 0 <= i < WindowCount(|content|, o) ::
      StartOf(i, o) <= p < EndOf(i, o, |content|) && WindowAt(content, o, i) in NonBlank(AllWindows(content, o))
  {
    var i := WindowOf(|content|, o, p);
    var w, n := WindowAt(content, o, i), WindowCount(|content|, o);
    assert w[p - StartOf(i, o)] == content[p];
    WindowsAt(content, o, n, i);
    assert w in AllWindows(content, o);
    KeptIff(AllWindows(content, o), w);
  }

  lemma WindowOf(length: nat, o: Options, p: nat) returns (i: nat)
    requires Normal(o) && p < length
    ensures i < WindowCount(length, o) && StartOf(i, o) <= p < EndOf(i, o, length)
  {
    i := 0;
    while p >= EndOf(i, o, length)
      invariant i < WindowCount(length, o) && StartOf(i, o) <= p
      decreases WindowCount(length, o) - i
    {
      StartsInside(length, o, i);
      assert StartOf(i + 1, o) == StartOf(i, o) + Stride(o);
      i := i + 1;
    }
  }

  /** No chunk counts more tokens than allowed, and every one counts some. */
  lemma ChunksAreSmall(content: Text, o: Options, w: Text)
    requires Normal(o) && w in NonBlank(AllWindows(content, o))
    ensures 1 <= CeilQuarter(|w|) <= o.max && !Blank(w)
  {
    KeptIff(AllWindows(content, o), w);
    var n := WindowCount(|content|, o);
    var i :| 0 <= i < n && AllWindows(content, o)[i] == w;
    WindowsAt(content, o, n, i);
    StartsInside(|content|, o, i);
  }
}
