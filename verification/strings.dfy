/**
 The two string primitives the popup relies on, with JavaScript's meaning for a
 one-character argument: `indexOf` and `split`. `Join` is the inverse of `Split`
 and is used to state what splitting preserves.
 */
module Strings {
  import opened Wrappers

  /** `s.indexOf(c)`: the first position of `c` in `s`; `None` stands for -1. */
  function IndexOf(s: string, c: char): (r: Option<nat>)
    ensures r.None? <==> c !in s
    ensures r.Some? ==> r.value < |s| && s[r.value] == c && c !in s[..r.value]
  {
    if |s| == 0 then None
    else if s[0] == c then Some(0)
    else
      assert s == [s[0]] + s[1..];
      match IndexOf(s[1..], c)
      case None => None
      case Some(i) =>
        assert s[..i + 1] == [s[0]] + s[1..][..i];
        Some(i + 1)
  }

  /** The first occurrence of `c` in `a + [c] + b` is right after `a` when `a` has none. */
  lemma IndexOfAfterPrefix(a: string, c: char, b: string)
    requires c !in a
    ensures IndexOf(a + [c] + b, c) == Some(|a|)
  {
    var s := a + [c] + b;
    assert s[|a|] == c;
    var r := IndexOf(s, c);
    assert r.Some?;
    assert s[..|a|] == a;
  }

  /** `fields.join(sep)` */
  function Join(fields: seq<string>, sep: char): string
  {
    if |fields| == 0 then ""
    else if |fields| == 1 then fields[0]
    else fields[0] + [sep] + Join(fields[1..], sep)
  }

  /**
   `s.split(sep)` for a one-character separator: the maximal runs between
   separators, so there is always at least one field (`"".split('|')` is `[""]`)
   and no field contains the separator.
   */
  function Split(s: string, sep: char): (r: seq<string>)
    ensures |r| >= 1
    ensures forall k :: 0 <= k < |r| ==> sep !in r[k]
    decreases |s|
  {
    match IndexOf(s, sep)
    case None => [s]
    case Some(i) => [s[..i]] + Split(s[i + 1..], sep)
  }

  /** Joining the fields of a split with the separator gives the string back. */
  lemma {:induction false} JoinOfSplit(s: string, sep: char)
    ensures Join(Split(s, sep), sep) == s
    decreases |s|
  {
    match IndexOf(s, sep)
    case None =>
    case Some(i) =>
      var rest := Split(s[i + 1..], sep);
      JoinOfSplit(s[i + 1..], sep);
      assert Split(s, sep) == [s[..i]] + rest;
      assert ([s[..i]] + rest)[1..] == rest;
      assert s == s[..i] + [sep] + s[i + 1..];
  }

  /** Splitting a join of separator-free fields gives the fields back. */
  lemma {:induction false} SplitOfJoin(fields: seq<string>, sep: char)
    requires |fields| >= 1
    requires forall k :: 0 <= k < |fields| ==> sep !in fields[k]
    ensures Split(Join(fields, sep), sep) == fields
  {
    if |fields| == 1 {
      assert Join(fields, sep) == fields[0];
    } else {
      var head, tail := fields[0], Join(fields[1..], sep);
      var s := head + [sep] + tail;
      assert Join(fields, sep) == s;
      IndexOfAfterPrefix(head, sep, tail);
      assert s[..|head|] == head;
      assert s[|head| + 1..] == tail;
      SplitOfJoin(fields[1..], sep);
      assert Split(s, sep) == [head] + Split(tail, sep);
      assert fields == [head] + fields[1..];
    }
  }

  /** The first field of a split is everything before the first separator. */
  lemma FirstField(s: string, sep: char)
    ensures IndexOf(s, sep).None? ==> Split(s, sep)[0] == s
    ensures IndexOf(s, sep).Some? ==> Split(s, sep)[0] == s[..IndexOf(s, sep).value]
  {
  }

  /** Splitting a separator-free field, a separator and more text. */
  lemma SplitAfterField(field: string, sep: char, tail: string)
    requires sep !in field
    ensures Split(field + [sep] + tail, sep) == [field] + Split(tail, sep)
  {
    var s := field + [sep] + tail;
    IndexOfAfterPrefix(field, sep, tail);
    assert s[..|field|] == field;
    assert s[|field| + 1..] == tail;
  }

  /** The first field of `field + rest`, when `rest` is empty or starts with the separator. */
  lemma FieldBeforeRest(field: string, sep: char, rest: string)
    requires sep !in field
    requires rest == [] || rest[0] == sep
    ensures Split(field + rest, sep)[0] == field
  {
    FirstField(field + rest, sep);
    if rest == [] {
      assert field + rest == field;
    } else {
      assert field + rest == field + [sep] + rest[1..];
      IndexOfAfterPrefix(field, sep, rest[1..]);
      assert (field + rest)[..|field|] == field;
    }
  }
}
