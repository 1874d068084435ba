/** Strings as Python's str.join and str.split treat them. */
module Text {

  /** `sep.join(parts)`: the parts with `sep` between neighbours; "" for no parts. */
  function Join(parts: seq<string>, sep: string): string
  {
    if |parts| == 0 then ""
    else if |parts| == 1 then parts[0]
    else parts[0] + sep + Join(parts[1..], sep)
  }

  /** Number of occurrences of `c` in `s`. */
  function Count(s: string, c: char): nat
  {
    if |s| == 0 then 0
    else (if s[0] == c then 1 else 0) + Count(s[1..], c)
  }

  /** `s.split(c)` for a one-character separator: always at least one piece,
      one more piece than `s` has separators, and no piece holds the separator. */
  function Split(s: string, c: char): (parts: seq<string>)
    ensures |parts| == Count(s, c) + 1
    ensures forall i :: 0 <= i < |parts| ==> c !in parts[i]
  {
    if |s| == 0 then [""]
    else
      var rest := Split(s[1..], c);
      if s[0] == c then [""] + rest
      else [[s[0]] + rest[0]] + rest[1..]
  }

  /** Splitting a separator-free text followed by the separator peels off that text. */
  lemma {:induction false} SplitPeel(p: string, c: char, rest: string)
    requires c !in p
    ensures Split(p + [c] + rest, c) == [p] + Split(rest, c)
  {
    if |p| == 0 {
      assert p + [c] + rest == [c] + rest;
      assert ([c] + rest)[1..] == rest;
    } else {
      assert (p + [c] + rest)[1..] == p[1..] + [c] + rest;
      SplitPeel(p[1..], c, rest);
      assert [p[0]] + p[1..] == p;
    }
  }

  /** A separator-free text splits into itself. */
  lemma {:induction false} SplitNoSeparator(p: string, c: char)
    requires c !in p
    ensures Split(p, c) == [p]
  {
    if |p| > 0 {
      SplitNoSeparator(p[1..], c);
      assert [p[0]] + p[1..] == p;
    }
  }

  /** Splitting undoes joining on a one-character separator that no part contains. */
  lemma {:induction false} SplitJoin(parts: seq<string>, c: char)
    requires |parts| >= 1
    requires forall i :: 0 <= i < |parts| ==> c !in parts[i]
    ensures Split(Join(parts, [c]), c) == parts
  {
    if |parts| == 1 {
      SplitNoSeparator(parts[0], c);
    } else {
      SplitJoin(parts[1..], c);
      SplitPeel(parts[0], c, Join(parts[1..], [c]));
    }
  }

  /** Prepending to the first part prepends to the joined text. */
  lemma JoinPrefix(x: string, parts: seq<string>)
    requires |parts| >= 1
    ensures forall sep :: Join([x + parts[0]] + parts[1..], sep) == x + Join(parts, sep)
  {
    forall sep ensures Join([x + parts[0]] + parts[1..], sep) == x + Join(parts, sep) {
      var q := [x + parts[0]] + parts[1..];
      assert q[1..] == parts[1..];
    }
  }
}
