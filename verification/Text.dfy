/** Searching text for a separator. */
module Text {
  import opened Common

  function IndexOf(s: string, c: char): Option<nat> {
    if s == "" then None
    else if s[0] == c then Some(0)
    else match IndexOf(s[1..], c)
         case None => None
         case Some(i) => Some(i + 1)
  }

  lemma {:induction false} IndexOfIsFirst(s: string, c: char)
    ensures IndexOf(s, c).None? <==> c !in s
    ensures IndexOf(s, c).Some? ==> var i := IndexOf(s, c).value; i < |s| && s[i] == c && c !in s[..i]
  {
    if s != "" {
      IndexOfIsFirst(s[1..], c);
      if s[0] != c && IndexOf(s[1..], c).Some? {
        var i := IndexOf(s[1..], c).value;
        assert s[..i + 1] == [s[0]] + s[1..][..i];
      }
    }
  }

  lemma {:induction false} IndexOfSeparator(before: string, after: string, c: char)
    requires c !in before
    ensures IndexOf(before + [c] + after, c) == Some(|before|)
  {
    if before != "" {
      assert before[0] in before;
      IndexOfSeparator(before[1..], after, c);
      assert (before + [c] + after)[1..] == before[1..] + [c] + after;
    }
  }
}
