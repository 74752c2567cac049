/**
 * Texts made of parts with slashes between them: prefix and substring tests on the whole text, decided
 * by the parts that it was joined from, and splitting as the inverse of joining.
 */
module SlashText {
  import opened PosixPath

  /** `text.includes(pattern)` */
  predicate Includes(s: string, pattern: string) {
    pattern <= s || (s != "" && Includes(s[1..], pattern))
  }

  /** No segment has a slash. */
  predicate Segments(parts: seq<string>) {
    parts != [] && forall i | 0 <= i < |parts| :: '/' !in parts[i]
  }

  /** A segment in front changes nothing for a pattern that starts with a slash. */
  lemma {:induction false} PassSegment(segment: string, rest: string, w: string)
    requires '/' !in segment
    ensures Includes(segment + rest, "/" + w) <==> Includes(rest, "/" + w)
  {
    if segment == "" {
      assert segment + rest == rest;
    } else {
      assert (segment + rest)[0] == segment[0] && ("/" + w)[0] == '/';
      assert (segment + rest)[1..] == segment[1..] + rest;
      PassSegment(segment[1..], rest, w);
    }
  }

  lemma AtSlash(rest: string, w: string)
    ensures Includes("/" + rest, "/" + w) <==> w <= rest || Includes(rest, "/" + w)
  {
    assert ("/" + rest)[1..] == rest && ("/" + w)[1..] == w;
    if w <= rest {
      assert ("/" + rest)[..|w| + 1] == "/" + rest[..|w|];
    }
    if "/" + w <= "/" + rest {
      assert rest[..|w|] == ("/" + rest)[1..][..|w|] == w;
    }
  }

  lemma EmptyHasNone(w: string)
    ensures !Includes("", "/" + w)
  {
  }

  /** A pattern without slash can only start the first segment. */
  lemma StartInFirst(first: string, rest: string, w: string)
    requires '/' !in w && (rest == "" || rest[0] == '/')
    ensures w <= first + rest <==> w <= first
  {
    var s := first + rest;
    assert s[..|first|] == first;
    if |w| > |first| && w <= s {
      SlashReached(first, rest, w);
    }
    if w <= s && |w| <= |first| {
      assert first[..|w|] == s[..|w|];
    }
    if w <= first {
      assert s[..|w|] == first[..|w|];
    }
  }

  lemma SlashReached(first: string, rest: string, w: string)
    requires |w| > |first| && w <= first + rest && rest != "" && rest[0] == '/'
    ensures '/' in w
  {
    assert w[|first|] == (first + rest)[|first|] == '/';
  }

  lemma JoinTail(parts: seq<string>)
    requires parts != []
    ensures Join(parts) == parts[0] + if |parts| == 1 then "" else "/" + Join(parts[1..])
  {
    if |parts| == 1 {
      assert parts[0] + "" == parts[0];
    } else {
      assert parts[0] + "/" + Join(parts[1..]) == parts[0] + ("/" + Join(parts[1..]));
    }
  }

  /** One of the later segments starts with the text. */
  predicate LaterStarts(parts: seq<string>, w: string) {
    |parts| > 1 && (w <= parts[1] || LaterStarts(parts[1..], w))
  }

  lemma {:induction false} IncludesStart(parts: seq<string>, w: string)
    requires Segments(parts) && '/' !in w
    ensures Includes(Join(parts), "/" + w) <==> LaterStarts(parts, w)
  {
    JoinTail(parts);
    if |parts| == 1 {
      PassSegment(parts[0], "", w);
      EmptyHasNone(w);
    } else {
      PassSegment(parts[0], "/" + Join(parts[1..]), w);
      AtSlash(Join(parts[1..]), w);
      IncludesStart(parts[1..], w);
      JoinTail(parts[1..]);
      StartInFirst(parts[1], if |parts| == 2 then "" else "/" + Join(parts[2..]), w);
      assert |parts| > 2 ==> parts[1..][1..] == parts[2..];
    }
  }

  /** One of the later segments but the last one is the text. */
  predicate LaterIs(parts: seq<string>, w: string) {
    |parts| > 2 && (w == parts[1] || LaterIs(parts[1..], w))
  }

  /** The slash behind a shorter text falls into a longer one. */
  lemma SlashInside(first: string, a: string, other: string, rest: string)
    requires first + "/" + a <= other + rest && |first| < |other|
    ensures '/' in other
  {
    assert other[|first|] == (other + rest)[|first|] == (first + "/" + a)[|first|];
  }

  lemma SlashBefore(first: string, rest: string, other: string, b: string)
    requires first + rest <= other + "/" + b && |other| < |first|
    ensures '/' in first
  {
    assert first[|other|] == (first + rest)[|other|] == (other + "/" + b)[|other|];
  }

  lemma WholeFirst(first: string, rest: string, w: string)
    requires '/' !in first && '/' !in w && (rest == "" || rest[0] == '/')
    ensures w + "/" <= first + rest <==> rest != "" && w == first
  {
    var s := first + rest;
    if w + "/" <= s {
      assert (w + "/")[|w|] == '/' == s[|w|];
      if |w| < |first| {
        SlashInside(w, "", first, rest);
      } else if |w| > |first| {
        assert w <= s by { assert (w + "/")[..|w|] == w; assert s[..|w|] == (w + "/")[..|w|]; }
        SlashReached(first, rest, w);
      } else {
        assert s[..|w|] == first && (w + "/")[..|w|] == w;
      }
    }
    if rest != "" && w == first {
      assert s[..|w| + 1] == w + "/";
    }
  }

  lemma {:induction false} IncludesWhole(parts: seq<string>, w: string)
    requires Segments(parts) && '/' !in w
    ensures Includes(Join(parts), "/" + (w + "/")) <==> LaterIs(parts, w)
  {
    JoinTail(parts);
    if |parts| == 1 {
      PassSegment(parts[0], "", w + "/");
      EmptyHasNone(w + "/");
    } else {
      PassSegment(parts[0], "/" + Join(parts[1..]), w + "/");
      AtSlash(Join(parts[1..]), w + "/");
      IncludesWhole(parts[1..], w);
      JoinTail(parts[1..]);
      WholeFirst(parts[1], if |parts| == 2 then "" else "/" + Join(parts[2..]), w);
      assert |parts| > 2 ==> parts[1..][1..] == parts[2..];
    }
  }

  /** The segments start with these, and the next one with the text. */
  predicate StartsLike(parts: seq<string>, prefix: seq<string>, w: string) {
    if prefix == [] then parts != [] && w <= parts[0]
    else |parts| > 1 && parts[0] == prefix[0] && StartsLike(parts[1..], prefix[1..], w)
  }

  /** The text of leading segments and the start of the next one. */
  function Leading(prefix: seq<string>, w: string): string {
    if prefix == [] then w else prefix[0] + "/" + Leading(prefix[1..], w)
  }

  lemma AfterSlash(first: string, other: string, a: string, b: string)
    requires '/' !in first && '/' !in other
    ensures first + "/" + a <= other + "/" + b <==> first == other && a <= b
    ensures !(first + "/" + a <= other)
  {
    var s, t := first + "/" + a, other + "/" + b;
    assert s[|first|] == '/' && t[|other|] == '/';
    assert s[..|first|] == first && t[..|other|] == other;
    assert s[|first| + 1..] == a && t[|other| + 1..] == b;
    if s <= other {
      SlashInside(first, a, other, "");
    }
    if s <= t {
      if |first| < |other| {
        SlashInside(first, a, other, "/" + b);
      } else if |other| < |first| {
        SlashBefore(first, "/" + a, other, b);
      } else {
        assert first == t[..|first|] == other;
        assert b[..|a|] == t[..|s|][|first| + 1..] == a;
      }
    }
    if first == other && a <= b {
      assert t[..|s|] == first + "/" + b[..|a|];
    }
  }

  lemma {:induction false} StartsText(parts: seq<string>, prefix: seq<string>, w: string)
    requires Segments(parts) && '/' !in w && forall i | 0 <= i < |prefix| :: '/' !in prefix[i]
    ensures Leading(prefix, w) <= Join(parts) <==> StartsLike(parts, prefix, w)
  {
    JoinTail(parts);
    if prefix == [] {
      StartInFirst(parts[0], if |parts| == 1 then "" else "/" + Join(parts[1..]), w);
    } else if |parts| == 1 {
      AfterSlash(prefix[0], parts[0], Leading(prefix[1..], w), "");
      assert Join(parts) == parts[0];
    } else {
      AfterSlash(prefix[0], parts[0], Leading(prefix[1..], w), Join(parts[1..]));
      StartsText(parts[1..], prefix[1..], w);
    }
  }

  lemma {:induction false} LaterStartsAt(parts: seq<string>, w: string)
    ensures LaterStarts(parts, w) <==> exists i :: 1 <= i < |parts| && w <= parts[i]
  {
    if |parts| > 1 {
      LaterStartsAt(parts[1..], w);
      if i :| 1 <= i < |parts[1..]| && w <= parts[1..][i] {
        assert w <= parts[i + 1];
      }
      if i :| 1 <= i < |parts| && w <= parts[i] {
        assert i > 1 ==> w <= parts[1..][i - 1];
      }
    }
  }

  lemma {:induction false} LaterIsAt(parts: seq<string>, w: string)
    ensures LaterIs(parts, w) <==> exists i :: 1 <= i < |parts| - 1 && w == parts[i]
  {
    if |parts| > 2 {
      LaterIsAt(parts[1..], w);
      if i :| 1 <= i < |parts[1..]| - 1 && w == parts[1..][i] {
        assert w == parts[i + 1];
      }
      if i :| 1 <= i < |parts| - 1 && w == parts[i] {
        assert i > 1 ==> w == parts[1..][i - 1];
      }
    }
  }

  lemma {:induction false} StartsLikeAt(parts: seq<string>, prefix: seq<string>, w: string)
    ensures StartsLike(parts, prefix, w) <==>
              && |prefix| < |parts| && w <= parts[|prefix|] && forall i | 0 <= i < |prefix| :: parts[i] == prefix[i]
  {
    if prefix != [] && |parts| > 1 {
      StartsLikeAt(parts[1..], prefix[1..], w);
      assert forall i | 1 <= i < |prefix| && i < |parts| :: parts[i] == parts[1..][i - 1] && prefix[i] == prefix[1..][i - 1];
    }
  }

  lemma {:induction false} SplitInvertsJoin(parts: seq<string>)
    requires Segments(parts)
    ensures Split(Join(parts)) == parts
  {
    JoinTail(parts);
    HeadOf(parts[0], if |parts| == 1 then "" else "/" + Join(parts[1..]));
    if |parts| > 1 {
      SplitInvertsJoin(parts[1..]);
      var s, n := Join(parts), |parts[0]|;
      assert s[..n] == parts[0] && s[n + 1..] == Join(parts[1..]);
    } else {
      assert Join(parts) == parts[0];
    }
  }

  lemma {:induction false} HeadOf(first: string, rest: string)
    requires '/' !in first && (rest == "" || rest[0] == '/')
    ensures Head(first + rest) == |first|
  {
    if first == "" {
      assert first + rest == rest;
    } else {
      assert (first + rest)[1..] == first[1..] + rest;
      HeadOf(first[1..], rest);
    }
  }
}
