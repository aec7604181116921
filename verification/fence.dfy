/**
 * Extraction of the JSON payload from the reasoning service's free-form text:
 * the first block tagged "```json", else the first "```" block, else the
 * whole text.  Python's `in`, `split(sep)[1]`, `split(sep)[0]` and `strip()`
 * are written out over `string`.
 */
module Fence {
  import opened Common

  const Ticks: string := "```"
  const JsonTicks: string := "```json"

  /** True iff `pat` occurs in `s` starting at index `i`. */
  predicate OccursAt(s: string, pat: string, i: nat)
  {
    i + |pat| <= |s| && s[i..i + |pat|] == pat
  }

  /** Python's `pat in s`. */
  predicate Contains(s: string, pat: string)
  {
    exists i: nat :: i <= |s| && OccursAt(s, pat, i)
  }

  /** The leftmost occurrence of `pat` in `s` at or after `from`, if any. */
  function FindFrom(s: string, pat: string, from: nat): (r: Option<nat>)
    requires |pat| > 0
    decreases |s| - from
    ensures r.Some? ==> from <= r.value && OccursAt(s, pat, r.value)
    ensures r.Some? ==> forall i: nat :: from <= i < r.value ==> !OccursAt(s, pat, i)
    ensures r.None? ==> forall i: nat :: from <= i ==> !OccursAt(s, pat, i)
  {
    if from + |pat| > |s| then None
    else if s[from..from + |pat|] == pat then Some(from)
    else FindFrom(s, pat, from + 1)
  }

  /** The leftmost occurrence of `pat` in `s` (`s.find(pat)`). */
  function Find(s: string, pat: string): (r: Option<nat>)
    requires |pat| > 0
    ensures r.Some? <==> Contains(s, pat)
    ensures r.Some? ==> OccursAt(s, pat, r.value) && forall i: nat :: i < r.value ==> !OccursAt(s, pat, i)
  {
    FindFrom(s, pat, 0)
  }

  /** Every window of a slice is a window of the whole text. */
  lemma WindowOfSlice(s: string, a: nat, b: nat, j: nat, n: nat)
    requires a <= b <= |s| && j + n <= b - a
    ensures s[a..b][j..j + n] == s[a + j..a + j + n]
  {
    var x, y := s[a..b][j..j + n], s[a + j..a + j + n];
    assert forall k :: 0 <= k < n ==> x[k] == y[k];
  }

  /** A sub-range of a text without `pat` is itself without `pat`. */
  lemma NoOccurrenceInSlice(s: string, pat: string, a: nat, b: nat)
    requires a <= b <= |s| && !Contains(s, pat)
    ensures !Contains(s[a..b], pat)
  {
    forall j: nat | j <= b - a && OccursAt(s[a..b], pat, j) ensures false {
      WindowOfSlice(s, a, b, j, |pat|);
      assert OccursAt(s, pat, a + j);
    }
  }

  /** `s.split(sep)[0]`: the text before the first `sep`, or all of `s`. */
  function UpToFirst(s: string, sep: string): (r: string)
    requires |sep| > 0
    ensures !Contains(r, sep)
    ensures r <= s
    ensures !Contains(s, sep) ==> r == s
    ensures Contains(s, sep) ==> OccursAt(s, sep, |r|) && forall i: nat :: i < |r| ==> !OccursAt(s, sep, i)
  {
    match Find(s, sep)
    case None => s
    case Some(i) =>
      assert !Contains(s[..i], sep) by {
        forall j: nat | j <= i && OccursAt(s[..i], sep, j) ensures false {
          WindowOfSlice(s, 0, i, j, |sep|);
          assert OccursAt(s, sep, j);
        }
      }
      s[..i]
  }

  /** `s.split(sep)[1]` for an `s` that contains `sep`: the text after the first `sep`, up to the next one. */
  function SecondPart(s: string, sep: string): (r: string)
    requires |sep| > 0 && Contains(s, sep)
    ensures !Contains(r, sep)
  {
    var i := Find(s, sep).value;
    UpToFirst(s[i + |sep|..], sep)
  }

  /** Python's `str.isspace` for one character: the characters `str.strip()` removes. */
  predicate IsSpace(c: char)
  {
    || c == ' ' || c == '\t' || c == '\n' || c == '\r' || c == '\U{000B}' || c == '\U{000C}'
    || ('\U{001C}' <= c <= '\U{001F}')
    || c == '\U{0085}' || c == '\U{00A0}' || c == '\U{1680}'
    || ('\U{2000}' <= c <= '\U{200A}')
    || c == '\U{2028}' || c == '\U{2029}' || c == '\U{202F}' || c == '\U{205F}' || c == '\U{3000}'
  }

  /** True iff `s` neither starts nor ends with whitespace. */
  predicate Trimmed(s: string)
  {
    |s| == 0 || (!IsSpace(s[0]) && !IsSpace(s[|s| - 1]))
  }

  /** `s.lstrip()`: the suffix left once the leading whitespace is gone. */
  function StripStart(s: string): (r: string)
    ensures |r| <= |s| && r == s[|s| - |r|..]
    ensures |r| == 0 || !IsSpace(r[0])
    ensures forall k :: 0 <= k < |s| - |r| ==> IsSpace(s[k])
  {
    if |s| > 0 && IsSpace(s[0]) then StripStart(s[1..]) else s
  }

  /** `s.rstrip()`: the prefix left once the trailing whitespace is gone. */
  function StripEnd(s: string): (r: string)
    ensures |r| <= |s| && r == s[..|r|]
    ensures |r| == 0 || !IsSpace(r[|r| - 1])
    ensures forall k :: |r| <= k < |s| ==> IsSpace(s[k])
  {
    if |s| > 0 && IsSpace(s[|s| - 1]) then StripEnd(s[..|s| - 1]) else s
  }

  /** `s.strip()`: `s` without its leading and trailing whitespace. */
  function Strip(s: string): (r: string)
    ensures Trimmed(r)
    ensures Trimmed(s) ==> r == s
    ensures exists a: nat :: CutFrom(s, r, a)
  {
    var t := StripStart(s);
    var r := StripEnd(t);
    StripParts(s);
    assert CutFrom(s, r, |s| - |t|);
    if |r| > 0 then
      assert r[0] == t[0];
      r
    else
      r
  }

  /** True iff `r` is the slice of `s` at `a` and everything of `s` outside it is whitespace. */
  predicate CutFrom(s: string, r: string, a: nat)
  {
    && a + |r| <= |s| && r == s[a..a + |r|]
    && (forall k :: 0 <= k < a ==> IsSpace(s[k]))
    && (forall k :: a + |r| <= k < |s| ==> IsSpace(s[k]))
  }

  /** Stripping the end after the start leaves a slice with whitespace on both sides. */
  lemma StripParts(s: string)
    ensures CutFrom(s, StripEnd(StripStart(s)), |s| - |StripStart(s)|)
  {
    CutOfParts(s, StripStart(s), StripEnd(StripStart(s)));
  }

  /** A whitespace prefix cut from `s`, then a whitespace suffix cut from the rest, leave a slice of `s`. */
  lemma CutOfParts(s: string, t: string, r: string)
    requires |t| <= |s| && t == s[|s| - |t|..] && forall k :: 0 <= k < |s| - |t| ==> IsSpace(s[k])
    requires |r| <= |t| && r == t[..|r|] && forall k :: |r| <= k < |t| ==> IsSpace(t[k])
    ensures CutFrom(s, r, |s| - |t|)
  {
    var a := |s| - |t|;
    forall k | a + |r| <= k < |s|
      ensures IsSpace(s[k])
    {
      assert s[k] == t[k - a];
    }
  }

  /** What `strip()` keeps is one contiguous piece of its input. */
  lemma StripIsSlice(s: string) returns (a: nat, b: nat)
    ensures a <= b <= |s| && Strip(s) == s[a..b]
    ensures forall k :: 0 <= k < a || b <= k < |s| ==> IsSpace(s[k])
  {
    var t := StripStart(s);
    var r := StripEnd(t);
    a, b := |s| - |t|, |s| - |t| + |r|;
    assert r == t[..|r|];
  }

  /** Stripping cannot create an occurrence of a pattern. */
  lemma NoOccurrenceInStrip(p: string, pat: string)
    requires !Contains(p, pat)
    ensures !Contains(Strip(p), pat)
  {
    var a, b := StripIsSlice(p);
    NoOccurrenceInSlice(p, pat, a, b);
  }

  /** The payload of one raw reasoning-service output, as both agents extract it. */
  function Extract(raw: string): (r: string)
    ensures !Contains(r, Ticks)
    ensures !Contains(raw, Ticks) ==> r == raw
    ensures Contains(raw, Ticks) ==> Trimmed(r)
  {
    if Contains(raw, JsonTicks) then
      var p := UpToFirst(SecondPart(raw, JsonTicks), Ticks);
      NoOccurrenceInStrip(p, Ticks);
      JsonTicksContainTicks(raw);
      Strip(p)
    else if Contains(raw, Ticks) then
      var p := UpToFirst(SecondPart(raw, Ticks), Ticks);
      NoOccurrenceInStrip(p, Ticks);
      Strip(p)
    else
      raw
  }

  /** A text that mentions "```json" mentions "```". */
  lemma JsonTicksContainTicks(s: string)
    requires Contains(s, JsonTicks)
    ensures Contains(s, Ticks)
  {
    var i: nat :| i <= |s| && OccursAt(s, JsonTicks, i);
    TagStartsWithTicks(s, i);
  }

  /** Extracting an extracted payload returns it unchanged. */
  lemma ExtractIdempotent(raw: string)
    ensures Extract(Extract(raw)) == Extract(raw)
  {
  }

  /**
   * With a "```json" tag, the payload is what follows the first tag up to the
   * next fence, stripped, provided no second "```json" tag follows.  (When one
   * does, `split("```json")` cuts there first: see `ExtractOverlappingTags`.)
   */
  lemma ExtractJsonBlock(raw: string)
    requires Contains(raw, JsonTicks)
    requires !Contains(raw[Find(raw, JsonTicks).value + |JsonTicks|..], JsonTicks)
    ensures Extract(raw) == Strip(UpToFirst(raw[Find(raw, JsonTicks).value + |JsonTicks|..], Ticks))
  {
  }

  /** Without a "```json" tag, the payload is the text between the first two fences (or to the end), stripped. */
  lemma ExtractPlainBlock(raw: string)
    requires !Contains(raw, JsonTicks) && Contains(raw, Ticks)
    ensures Extract(raw) == Strip(UpToFirst(raw[Find(raw, Ticks).value + |Ticks|..], Ticks))
  {
    var i := Find(raw, Ticks).value;
    var p := SecondPart(raw, Ticks);
    assert p == UpToFirst(raw[i + |Ticks|..], Ticks);
    assert Extract(raw) == Strip(UpToFirst(p, Ticks));
    UpToFirstIdempotent(p, Ticks);
  }

  /** Cutting at the first separator twice is cutting once. */
  lemma UpToFirstIdempotent(s: string, sep: string)
    requires |sep| > 0 && !Contains(s, sep)
    ensures UpToFirst(s, sep) == s
  {
  }

  /**
   * Five back-ticks before a second tag: `split("```json")[1]` stops at the
   * second tag, leaving two back-ticks that no fence cuts.
   */
  lemma ExtractOverlappingTags()
    ensures Extract(JsonTicks + "`````json") == "``"
  {
    var raw := JsonTicks + "`````json";
    assert OccursAt(raw, JsonTicks, 0);
    OverlappingTagsSecondPart();
    assert !OccursAt("``", Ticks, 0);
    assert UpToFirst("``", Ticks) == "``";
    assert Trimmed("``");
  }

  /** `split("```json")[1]` of the overlapping-tags text: the two back-ticks before the second tag. */
  lemma OverlappingTagsSecondPart()
    ensures Contains(JsonTicks + "`````json", JsonTicks)
    ensures SecondPart(JsonTicks + "`````json", JsonTicks) == "``"
  {
    var raw := JsonTicks + "`````json";
    assert OccursAt(raw, JsonTicks, 0);
    assert Find(raw, JsonTicks) == Some(0);
    var rest := raw[7..];
    assert rest == "`````json";
    assert OccursAt(rest, JsonTicks, 2);
    assert rest[0..7][3] == '`' && rest[1..8][3] == '`' && JsonTicks[3] == 'j';
    assert Find(rest, JsonTicks) == Some(2);
  }

  /** A trimmed payload without fences survives being wrapped in a "```json" block and extracted. */
  lemma ExtractRoundTrip(b: string)
    requires !Contains(b, Ticks) && Trimmed(b)
    ensures Extract(JsonTicks + "\n" + b + "\n" + Ticks) == b
  {
    var raw := JsonTicks + "\n" + b + "\n" + Ticks;
    assert OccursAt(raw, JsonTicks, 0) by { assert raw[0..7] == JsonTicks; }
    assert Find(raw, JsonTicks) == Some(0);
    var inner := "\n" + b + "\n";
    var tail := raw[7..];
    assert tail == inner + Ticks;
    FirstFenceAfterFrame(b);
    assert Find(tail, Ticks) == Some(|inner|);
    assert UpToFirst(tail, Ticks) == inner;
    assert !Contains(tail, JsonTicks) by {
      forall j: nat | j <= |tail| && OccursAt(tail, JsonTicks, j) ensures false {
        TagStartsWithTicks(tail, j);
      }
    }
    assert SecondPart(raw, JsonTicks) == tail;
    assert !Contains(inner, Ticks);
    StripFramed(b);
  }

  /** Every "```json" tag begins with a fence. */
  lemma TagStartsWithTicks(s: string, i: nat)
    requires OccursAt(s, JsonTicks, i)
    ensures OccursAt(s, Ticks, i)
  {
    assert s[i..i + 3] == s[i..i + 7][..3];
  }

  /** In `"\n" + b + "\n```"` with `b` fence-free, the first fence is the closing one. */
  lemma FirstFenceAfterFrame(b: string)
    requires !Contains(b, Ticks)
    ensures var inner := "\n" + b + "\n";
            Find(inner + Ticks, Ticks) == Some(|inner|)
  {
    var inner := "\n" + b + "\n";
    var tail := inner + Ticks;
    assert OccursAt(tail, Ticks, |inner|) by { assert tail[|inner|..|inner| + 3] == Ticks; }
    forall j: nat | j < |inner| ensures !OccursAt(tail, Ticks, j) {
      NoFenceInFrame(b, j);
    }
  }

  /** No fence starts inside `"\n" + b + "\n"` when `b` has none, even one running into a fence that follows. */
  lemma NoFenceInFrame(b: string, j: nat)
    requires !Contains(b, Ticks) && j < |b| + 2
    ensures !OccursAt("\n" + b + "\n" + Ticks, Ticks, j)
  {
    var inner := "\n" + b + "\n";
    var tail := inner + Ticks;
    if j == 0 {
      assert tail[0] == '\n';
    } else if j + 3 <= |inner| - 1 {
      assert tail[j..j + 3] == b[j - 1..j + 2];
      assert !OccursAt(b, Ticks, j - 1);
    } else {
      assert tail[|inner| - 1] == '\n';
      assert j + 3 > |tail| || tail[j..j + 3][|inner| - 1 - j] == '\n';
    }
  }

  /** A trimmed text framed by newlines strips back to itself. */
  lemma StripFramed(b: string)
    requires Trimmed(b)
    ensures Strip("\n" + b + "\n") == b
  {
    var s := "\n" + b + "\n";
    assert s[1..] == b + "\n";
    if |b| > 0 {
      assert StripStart(b + "\n") == b + "\n";
      assert StripStart(s) == b + "\n";
      assert (b + "\n")[..|b|] == b;
      assert StripEnd(b + "\n") == StripEnd(b) == b;
    } else {
      assert StripStart(s[1..]) == StripStart("\n");
      assert "\n"[1..] == "";
    }
  }
}
