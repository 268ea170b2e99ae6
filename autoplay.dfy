/**
 * The autoplay rule of `playVisibleVideo`: measure how much of each post's
 * rectangle lies inside the viewport, pick the first post with the strictly
 * greatest positive visible fraction, then play that post's video and pause
 * every other one. Pixels are whole numbers and fractions are compared by
 * cross-multiplication; `Ratio` gives the same fractions as real numbers.
 */
module Autoplay {
  import opened Wrappers

  /** A post's bounding rectangle, as viewport rows (`getBoundingClientRect().top/bottom`). */
  datatype Rect = Rect(top: int, bottom: int)

  /** A rendered post: its rectangle and whether it holds a `video` element. */
  datatype PostBox = PostBox(rect: Rect, hasVideo: bool)

  /** What the second loop does to a post's video; `NoVideo` is the early `return` for a post without one. */
  datatype Command = Play | Pause | NoVideo

  function Max(a: int, b: int): int { if a >= b then a else b }
  function Min(a: int, b: int): int { if a <= b then a else b }

  /** `rect.height`: positive exactly when the bottom lies below the top. */
  function Height(r: Rect): (n: int)
    ensures n > 0 <==> r.top < r.bottom
  {
    r.bottom - r.top
  }

  /** `Math.max(0, Math.min(bottom, h) - Math.max(top, 0))`: rows of `r` inside the viewport `[0, h]`. */
  function Visible(r: Rect, h: int): (v: int)
    ensures 0 <= v <= Max(0, Height(r))
    ensures v <= Max(0, h)
    ensures 0 <= r.top && r.bottom <= h && r.top <= r.bottom ==> v == Height(r)
    ensures (r.bottom <= 0 || h <= r.top) ==> v == 0
  {
    Max(0, Min(r.bottom, h) - Max(r.top, 0))
  }

  /**
   * `visible / rect.height`. A rectangle without positive height has no
   * visible rows, so JavaScript computes `NaN` or `-0`, neither of which
   * beats a ratio; it is 0 here.
   */
  function Ratio(r: Rect, h: int): (q: real)
    ensures 0.0 <= q <= 1.0
  {
    if Height(r) > 0 then
      FractionBounds(Visible(r, h) as real, Height(r) as real);
      Visible(r, h) as real / Height(r) as real
    else 0.0
  }

  /** A part of a positive whole is a fraction in `[0, 1]`, and positive exactly when the part is. */
  lemma FractionBounds(v: real, t: real)
    requires 0.0 <= v <= t && t > 0.0
    ensures 0.0 <= v / t <= 1.0
    ensures v / t > 0.0 <==> v > 0.0
  {
    var q := v / t;
    assert q * t == v;
    if q == 0.0 {
      assert q * t == 0.0;
    }
  }

  /** The fraction is positive exactly when some row of the post is visible. */
  lemma RatioBounds(r: Rect, h: int)
    ensures 0.0 <= Ratio(r, h) <= 1.0
    ensures Ratio(r, h) > 0.0 <==> Visible(r, h) > 0
  {
    if Height(r) > 0 {
      FractionBounds(Visible(r, h) as real, Height(r) as real);
    }
  }

  /** Comparing two fractions over positive denominators is comparing the cross products. */
  lemma CrossMultiply(va: int, ha: int, vb: int, hb: int)
    requires ha > 0 && hb > 0
    ensures va as real / ha as real < vb as real / hb as real <==> va * hb < vb * ha
  {
    var x, y := va as real / ha as real, vb as real / hb as real;
    assert x * ha as real == va as real;
    assert y * hb as real == vb as real;
    var k := ha as real * hb as real;
    assert k > 0.0;
    assert x * k == va as real * hb as real;
    assert y * k == vb as real * ha as real;
    assert x < y <==> x * k < y * k;
  }

  /** Post `b` has the greatest positive fraction, and every post before it a strictly smaller one. */
  ghost predicate IsFirstBest(posts: seq<Rect>, h: int, b: nat) {
    && b < |posts|
    && Ratio(posts[b], h) > 0.0
    && (forall j :: 0 <= j < |posts| ==> Ratio(posts[j], h) <= Ratio(posts[b], h))
    && (forall j :: 0 <= j < b ==> Ratio(posts[j], h) < Ratio(posts[b], h))
  }

  /** At most one post is the first best, so the selection is determined. */
  lemma FirstBestUnique(posts: seq<Rect>, h: int, a: nat, b: nat)
    requires IsFirstBest(posts, h, a) && IsFirstBest(posts, h, b)
    ensures a == b
  {
  }

  /**
   * The first loop of `playVisibleVideo`: `best` and `bestRatio`, the latter
   * kept as the fraction `bestVisible / bestHeight` and starting at `0 / 1`.
   */
  method SelectBest(posts: seq<Rect>, h: int) returns (best: Option<nat>)
    ensures best.Some? ==> IsFirstBest(posts, h, best.value)
    ensures best.None? <==> forall j :: 0 <= j < |posts| ==> Ratio(posts[j], h) == 0.0
  {
    best := None;
    var bestVisible, bestHeight := 0, 1;
    for i := 0 to |posts|
      invariant best.None? ==> bestVisible == 0 && bestHeight == 1
      invariant best.None? ==> forall j :: 0 <= j < i ==> Ratio(posts[j], h) == 0.0
      invariant best.Some? ==> best.value < i
      invariant best.Some? ==> bestVisible == Visible(posts[best.value], h) && bestHeight == Height(posts[best.value])
      invariant best.Some? ==> Ratio(posts[best.value], h) > 0.0 && bestHeight > 0
      invariant best.Some? ==> forall j :: 0 <= j < i ==> Ratio(posts[j], h) <= Ratio(posts[best.value], h)
      invariant best.Some? ==> forall j :: 0 <= j < best.value ==> Ratio(posts[j], h) < Ratio(posts[best.value], h)
    {
      var rect := posts[i];
      var visible := Visible(rect, h);
      var height := Height(rect);
      RatioBounds(rect, h);
      if height > 0 {
        CrossMultiply(bestVisible, bestHeight, visible, height);
      }
      if height > 0 && visible * bestHeight > bestVisible * height {
        best := Some(i);
        bestVisible, bestHeight := visible, height;
      }
    }
  }

  /** The second loop: play the chosen post's video, pause every other video. */
  method ApplyPlayback(posts: seq<PostBox>, best: Option<nat>) returns (cmds: seq<Command>)
    ensures |cmds| == |posts|
    ensures forall i :: 0 <= i < |posts| ==> (cmds[i] == NoVideo <==> !posts[i].hasVideo)
    ensures forall i :: 0 <= i < |posts| ==> (cmds[i] == Play <==> posts[i].hasVideo && best == Some(i))
    ensures forall i :: 0 <= i < |posts| ==> (cmds[i] == Pause <==> posts[i].hasVideo && best != Some(i))
    ensures forall i, j :: 0 <= i < |posts| && 0 <= j < |posts| && cmds[i] == Play && cmds[j] == Play ==> i == j
  {
    cmds := [];
    for i := 0 to |posts|
      invariant |cmds| == i
      invariant forall k :: 0 <= k < i ==> (cmds[k] == NoVideo <==> !posts[k].hasVideo)
      invariant forall k :: 0 <= k < i ==> (cmds[k] == Play <==> posts[k].hasVideo && best == Some(k))
      invariant forall k :: 0 <= k < i ==> (cmds[k] == Pause <==> posts[k].hasVideo && best != Some(k))
    {
      var c;
      if !posts[i].hasVideo {
        c := NoVideo;
      } else if best == Some(i) {
        c := Play;
      } else {
        c := Pause;
      }
      cmds := cmds + [c];
    }
  }

  /** The rectangles of the rendered posts, in page order (`p.getBoundingClientRect()` for each `p`). */
  function Rects(posts: seq<PostBox>): (r: seq<Rect>)
    ensures |r| == |posts| && forall i :: 0 <= i < |posts| ==> r[i] == posts[i].rect
  {
    if posts == [] then [] else [posts[0].rect] + Rects(posts[1..])
  }

  /**
   * `playVisibleVideo()` for the posts on screen and viewport height `h`:
   * only the first best-visible post's video plays; with nothing visible,
   * every video pauses.
   */
  method PlayVisibleVideo(posts: seq<PostBox>, h: int) returns (best: Option<nat>, cmds: seq<Command>)
    ensures best.Some? ==> IsFirstBest(Rects(posts), h, best.value)
    ensures best.None? <==> forall j :: 0 <= j < |posts| ==> Ratio(posts[j].rect, h) == 0.0
    ensures |cmds| == |posts|
    ensures forall i :: 0 <= i < |posts| ==> (cmds[i] == Play <==> posts[i].hasVideo && best == Some(i))
    ensures forall i :: 0 <= i < |posts| ==> (cmds[i] == Pause <==> posts[i].hasVideo && best != Some(i))
    ensures forall i, j :: 0 <= i < |posts| && 0 <= j < |posts| && cmds[i] == Play && cmds[j] == Play ==> i == j
    ensures best.None? ==> forall i :: 0 <= i < |posts| ==> cmds[i] != Play
  {
    var rects := Rects(posts);
    best := SelectBest(rects, h);
    cmds := ApplyPlayback(posts, best);
  }

  /** Fractions 0.2, 0.9 and 0.5 of a 100-row viewport: the second post is chosen. */
  lemma SecondOfThreeChosen()
    ensures IsFirstBest([Rect(80, 180), Rect(-10, 90), Rect(50, 150)], 100, 1)
  {
    var posts := [Rect(80, 180), Rect(-10, 90), Rect(50, 150)];
    assert Visible(posts[0], 100) == 20 && Visible(posts[1], 100) == 90 && Visible(posts[2], 100) == 50;
    assert Ratio(posts[0], 100) == 0.2 && Ratio(posts[1], 100) == 0.9 && Ratio(posts[2], 100) == 0.5;
  }
}
