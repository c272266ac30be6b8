/** The string helpers the campaign store relies on: Python's `str.replace` for the
    `{link}` placeholder and for the `@` of an e-mail address, and slicing `s[:n]`.
 */
module Text {

  /** The literal placeholder every template body carries. */
  const Placeholder: string := "{link}"

  /** True when the placeholder starts at position `i` of `s`. */
  predicate PlaceholderAt(s: string, i: nat) {
    i + |Placeholder| <= |s| && s[i..i + |Placeholder|] == Placeholder
  }

  /** `s.replace("{link}", link)`: a left-to-right scan that replaces every
      non-overlapping occurrence of the placeholder and copies everything else. */
  function ReplaceLink(s: string, link: string): string
    decreases |s|
  {
    if |s| == 0 then []
    else if PlaceholderAt(s, 0) then
      assert s == Placeholder + s[|Placeholder|..];
      link + ReplaceLink(s[|Placeholder|..], link)
    else
      assert s == [s[0]] + s[1..];
      [s[0]] + ReplaceLink(s[1..], link)
  }

  /** A prefix free of `{` is copied unchanged and the scan resumes after it. */
  lemma {:induction false} ReplaceLinkSkipsPlain(a: string, b: string, link: string)
    requires '{' !in a
    ensures ReplaceLink(a + b, link) == a + ReplaceLink(b, link)
    decreases |a|
  {
    if |a| > 0 {
      var s := a + b;
      assert s[0] == a[0];
      assert !PlaceholderAt(s, 0);
      assert s[1..] == a[1..] + b;
      assert ReplaceLink(s, link) == [a[0]] + ReplaceLink(a[1..] + b, link);
      ReplaceLinkSkipsPlain(a[1..], b, link);
      assert a == [a[0]] + a[1..];
    } else {
      assert a + b == b;
    }
  }

  /** Text without a `{` holds no placeholder and is copied unchanged. */
  lemma ReplaceLinkPlain(s: string, link: string)
    requires '{' !in s
    ensures ReplaceLink(s, link) == s
  {
    ReplaceLinkSkipsPlain(s, [], link);
    assert s + [] == s;
  }

  /** Putting the placeholder back in its own place changes nothing. */
  lemma {:induction false} ReplaceLinkIdentity(s: string)
    ensures ReplaceLink(s, Placeholder) == s
    decreases |s|
  {
    if |s| > 0 {
      if PlaceholderAt(s, 0) {
        ReplaceLinkIdentity(s[|Placeholder|..]);
        assert s == Placeholder + s[|Placeholder|..];
      } else {
        ReplaceLinkIdentity(s[1..]);
        assert s == [s[0]] + s[1..];
      }
    }
  }

  /** A body of the shape `head + "{link}" + tail` with no other `{` renders as
      `head + link + tail`: exactly the one placeholder is replaced. */
  lemma {:induction false} ReplaceLinkSingle(head: string, tail: string, link: string)
    requires '{' !in head && '{' !in tail
    ensures ReplaceLink(head + Placeholder + tail, link) == head + link + tail
  {
    var rest := Placeholder + tail;
    assert head + Placeholder + tail == head + rest;
    ReplaceLinkSkipsPlain(head, rest, link);
    assert PlaceholderAt(rest, 0) by {
      assert rest[0..|Placeholder|] == Placeholder;
    }
    assert rest[|Placeholder|..] == tail;
    ReplaceLinkPlain(tail, link);
  }

  /** `s.replace(from, to)` for single characters, as used to turn an e-mail
      address into a file name. */
  function ReplaceChar(s: string, from: char, to: char): (r: string)
    ensures |r| == |s|
    ensures forall i :: 0 <= i < |s| ==> r[i] == (if s[i] == from then to else s[i])
    ensures from != to ==> from !in r
  {
    if |s| == 0 then [] else [if s[0] == from then to else s[0]] + ReplaceChar(s[1..], from, to)
  }

  /** Python's `s[:n]`: the first `n` characters, or all of `s` when it is shorter. */
  function Take(s: string, n: nat): (r: string)
    ensures |r| == if |s| < n then |s| else n
    ensures r <= s
  {
    if |s| <= n then s else s[..n]
  }
}
