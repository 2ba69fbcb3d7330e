/** The parts of Go's `strings` package the core relies on, over strings as
    sequences of characters: `Split` and `Join` with a one-character separator, and
    ASCII case mapping as used by `EqualFold` on the ASCII prefix "urn:uuid:". */
module Strings {

  /** strings.Join: the parts with `sep` between neighbours. */
  function Join(parts: seq<string>, sep: char): string
    decreases |parts|
  {
    if |parts| == 0 then ""
    else if |parts| == 1 then parts[0]
    else parts[0] + [sep] + Join(parts[1..], sep)
  }

  /** The position of the first `c` in `s`. */
  function IndexOf(s: string, c: char): (i: nat)
    requires c in s
    ensures i < |s| && s[i] == c && c !in s[..i]
    decreases |s|
  {
    if s[0] == c then 0
    else
      var j := IndexOf(s[1..], c);
      assert s[..j + 1] == [s[0]] + s[1..][..j];
      j + 1
  }

  /** strings.Split with a one-character separator: the maximal separator-free
      pieces between separators, so always at least one piece ("" splits to [""]). */
  function Split(s: string, sep: char): (parts: seq<string>)
    ensures |parts| >= 1
    ensures forall i :: 0 <= i < |parts| ==> sep !in parts[i]
    ensures Join(parts, sep) == s
    decreases |s|
  {
    if sep !in s then [s]
    else
      var i := IndexOf(s, sep);
      var rest := Split(s[i + 1..], sep);
      assert ([s[..i]] + rest)[1..] == rest;
      assert s == s[..i] + [sep] + s[i + 1..];
      [s[..i]] + rest
  }

  /** In `head + [sep] + rest` with no `sep` in `head`, the first `sep` follows `head`. */
  lemma IndexAfterHead(head: string, sep: char, rest: string)
    requires sep !in head
    ensures sep in head + [sep] + rest
    ensures IndexOf(head + [sep] + rest, sep) == |head|
  {
    var s := head + [sep] + rest;
    assert s[|head|] == sep;
    var i := IndexOf(s, sep);
    assert forall k :: 0 <= k < |head| ==> s[k] == head[k];
  }

  /** Splitting a join of separator-free parts gives the parts back. */
  lemma {:induction false} SplitJoin(parts: seq<string>, sep: char)
    requires |parts| >= 1
    requires forall i :: 0 <= i < |parts| ==> sep !in parts[i]
    ensures Split(Join(parts, sep), sep) == parts
    decreases |parts|
  {
    if |parts| > 1 {
      var head := parts[0];
      var rest := Join(parts[1..], sep);
      var s := Join(parts, sep);
      assert s == head + [sep] + rest;
      IndexAfterHead(head, sep, rest);
      var i := IndexOf(s, sep);
      assert s[..i] == head;
      assert s[i + 1..] == rest;
      SplitJoin(parts[1..], sep);
      assert Split(s, sep) == [head] + Split(rest, sep);
      assert parts == [head] + parts[1..];
    }
  }

  function UpperChar(c: char): char
  {
    if 'a' <= c <= 'z' then (c as int - 32) as char else c
  }

  function LowerChar(c: char): char
  {
    if 'A' <= c <= 'Z' then (c as int + 32) as char else c
  }

  function ToUpper(s: string): string
  {
    seq(|s|, i requires 0 <= i < |s| => UpperChar(s[i]))
  }

  function ToLower(s: string): string
  {
    seq(|s|, i requires 0 <= i < |s| => LowerChar(s[i]))
  }

  /** strings.EqualFold restricted to ASCII letters, which is all it meets here. */
  predicate EqualFold(a: string, b: string)
  {
    ToLower(a) == ToLower(b)
  }
}
