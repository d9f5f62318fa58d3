/** Texts joined by commas. */
module TextJoin {
  function Join(parts: seq<string>): string {
    if parts == [] then ""
    else if |parts| == 1 then parts[0]
    else parts[0] + "," + Join(parts[1..])
  }

  /** Printers add at the end: a separator before every part but the first. */
  lemma {:induction false} JoinMore(parts: seq<string>, last: string)
    ensures Join(parts + [last]) == (if parts == [] then last else Join(parts) + "," + last)
  {
    if |parts| > 1 {
      assert (parts + [last])[1..] == parts[1..] + [last];
      JoinMore(parts[1..], last);
    } else if |parts| == 1 {
      assert (parts + [last])[1..] == [last];
    }
  }
}
