/** The slot label: a chosen path clipped to a fixed display budget. */
module Label {

  /** Paths up to this many characters are shown whole. */
  const Budget := 27
  /** A longer path keeps this many leading characters ... */
  const Head := 6
  /** ... then this marker ... */
  const Ellipsis := "..."
  /** ... then this many trailing characters. */
  const Tail := 15

  /** The text shown for a chosen path. */
  function Clip(path: string): (text: string)
    ensures |text| <= Budget
    ensures text == path <==> |path| <= Budget
    ensures |path| > Budget ==>
      && |text| == Head + |Ellipsis| + Tail == 24
      && text[..Head] == path[..Head]
      && text[Head..Head + |Ellipsis|] == Ellipsis
      && text[Head + |Ellipsis|..] == path[|path| - Tail..]
  {
    if |path| > Budget then path[..Head] + Ellipsis + path[|path| - Tail..]
    else path
  }

  /** Clipping a label again changes nothing: every label is within budget. */
  lemma ClipIdempotent(path: string)
    ensures Clip(Clip(path)) == Clip(path)
  {
  }

  /** Two long paths that share their first six and last fifteen characters
      get the same label, whatever lies between. */
  lemma ClipForgetsMiddle(p: string, q: string)
    requires |p| > Budget && |q| > Budget
    requires p[..Head] == q[..Head]
    requires p[|p| - Tail..] == q[|q| - Tail..]
    ensures Clip(p) == Clip(q)
  {
  }
}
