/**
 * String joining as done by `Collectors.joining(separator)`: the parts in
 * their order, with the separator between every two consecutive parts and
 * nowhere else.
 */
module Joining {

  /** `prefix` is a prefix of `s`. */
  predicate StartsWith(s: string, prefix: string) {
    |prefix| <= |s| && s[..|prefix|] == prefix
  }

  /** `suffix` is a suffix of `s`. */
  predicate EndsWith(s: string, suffix: string) {
    |suffix| <= |s| && s[|s| - |suffix|..] == suffix
  }

  /**
   * The joined string, built as a `StringJoiner` builds it: each part after
   * the first is appended behind a separator. No parts give the empty string.
   * The result opens with the first part and closes with the last one, so no
   * separator is added in front or behind.
   */
  function Join(parts: seq<string>, sep: string): (r: string)
    ensures parts != [] ==> StartsWith(r, parts[0]) && EndsWith(r, parts[|parts| - 1])
    ensures parts == [] ==> r == ""
  {
    if |parts| == 0 then ""
    else if |parts| == 1 then parts[0]
    else Join(parts[..|parts| - 1], sep) + sep + parts[|parts| - 1]
  }

  /** Each of `xs`, preceded by a separator, concatenated. */
  function Prefixed(xs: seq<string>, sep: string): string {
    if xs == [] then "" else sep + xs[0] + Prefixed(xs[1..], sep)
  }

  /**
   * An independent reading of the same join, from the front: the first part,
   * then every further part preceded by the separator.
   */
  function JoinFromFront(parts: seq<string>, sep: string): string {
    if parts == [] then "" else parts[0] + Prefixed(parts[1..], sep)
  }

  lemma {:induction false} PrefixedSnoc(xs: seq<string>, x: string, sep: string)
    ensures Prefixed(xs + [x], sep) == Prefixed(xs, sep) + sep + x
  {
    if xs == [] {
      assert xs + [x] == [x];
    } else {
      assert (xs + [x])[1..] == xs[1..] + [x];
      PrefixedSnoc(xs[1..], x, sep);
    }
  }

  /** Both readings of the join agree on every input. */
  lemma {:induction false} JoinMatchesFromFront(parts: seq<string>, sep: string)
    ensures Join(parts, sep) == JoinFromFront(parts, sep)
  {
    if |parts| > 1 {
      var init, last := parts[..|parts| - 1], parts[|parts| - 1];
      assert parts[1..] == init[1..] + [last];
      calc {
        JoinFromFront(parts, sep);
        parts[0] + Prefixed(init[1..] + [last], sep);
        { PrefixedSnoc(init[1..], last, sep); }
        init[0] + (Prefixed(init[1..], sep) + sep + last);
        JoinFromFront(init, sep) + sep + last;
        { JoinMatchesFromFront(init, sep); }
        Join(init, sep) + sep + last;
        Join(parts, sep);
      }
    }
  }

  /** Appending one part to a non-empty list appends a separator and that part. */
  lemma JoinSnoc(parts: seq<string>, x: string, sep: string)
    requires parts != []
    ensures Join(parts + [x], sep) == Join(parts, sep) + sep + x
  {
    assert (parts + [x])[..|parts|] == parts;
  }

  /** Joining two non-empty lists joins their joins with one separator. */
  lemma {:induction false} JoinConcat(a: seq<string>, b: seq<string>, sep: string)
    requires a != [] && b != []
    ensures Join(a + b, sep) == Join(a, sep) + sep + Join(b, sep)
    decreases |b|
  {
    if |b| == 1 {
      assert a + b == a + [b[0]];
      JoinSnoc(a, b[0], sep);
    } else {
      var init, last := b[..|b| - 1], b[|b| - 1];
      assert b == init + [last];
      assert a + b == (a + init) + [last];
      var head := Join(a, sep) + sep;
      calc {
        Join(a + b, sep);
        { JoinSnoc(a + init, last, sep); }
        Join(a + init, sep) + sep + last;
        { JoinConcat(a, init, sep); }
        head + Join(init, sep) + sep + last;
        head + (Join(init, sep) + sep + last);
        { JoinSnoc(init, last, sep); }
        head + Join(b, sep);
      }
    }
  }
}
