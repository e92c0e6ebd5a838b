/** The `joinToString` helper the printers use to build argument and
    type-parameter lists, with a reference definition and its inverse. */
module Text {

  /** Reference definition: the items in order, with `sep` between each two
      neighbours and nowhere else. */
  function Join(items: seq<string>, sep: string): string
  {
    if |items| == 0 then ""
    else if |items| == 1 then items[0]
    else items[0] + sep + Join(items[1..], sep)
  }

  /** The sum of the lengths of the items. */
  function TotalLength(items: seq<string>): nat
  {
    if |items| == 0 then 0 else |items[0]| + TotalLength(items[1..])
  }

  /** Appending one more item appends the separator and the item. */
  lemma {:induction false} JoinSnoc(items: seq<string>, sep: string, x: string)
    requires |items| >= 1
    ensures Join(items + [x], sep) == Join(items, sep) + sep + x
  {
    if |items| == 1 {
      assert (items + [x])[1..] == [x];
    } else {
      assert (items + [x])[1..] == items[1..] + [x];
      JoinSnoc(items[1..], sep, x);
    }
  }

  /** The string builder loop: start from the prefix, append the first item,
      then a separator and an item for each further item, then the postfix. */
  method JoinToString(items: seq<string>, sep: string, prefix: string, postfix: string) returns (r: string)
    ensures r == prefix + Join(items, sep) + postfix
    ensures |items| == 0 ==> r == prefix + postfix
  {
    var sb := prefix;
    if |items| > 0 {
      sb := sb + items[0];
      var k := 1;
      while k < |items|
        invariant 1 <= k <= |items|
        invariant sb == prefix + Join(items[..k], sep)
      {
        JoinSnoc(items[..k], sep, items[k]);
        assert items[..k + 1] == items[..k] + [items[k]];
        sb := sb + sep + items[k];
        k := k + 1;
      }
      assert items[..k] == items;
    }
    r := sb + postfix;
  }

  /** Exactly one separator fewer than items: the length of a join of n >= 1
      items is their total length plus n - 1 separators. */
  lemma {:induction false} JoinLength(items: seq<string>, sep: string)
    requires |items| >= 1
    ensures |Join(items, sep)| == TotalLength(items) + (|items| - 1) * |sep|
  {
    if |items| > 1 {
      JoinLength(items[1..], sep);
      assert TotalLength(items) == |items[0]| + TotalLength(items[1..]);
    } else {
      assert TotalLength(items[1..]) == 0;
    }
  }

  /** Splits a string at every occurrence of `c`; always at least one part. */
  function SplitOn(s: string, c: char): (parts: seq<string>)
    ensures |parts| >= 1
  {
    if |s| == 0 then [""]
    else
      var rest := SplitOn(s[1..], c);
      if s[0] == c then [""] + rest
      else [[s[0]] + rest[0]] + rest[1..]
  }

  /** A prefix free of `c` is glued onto the first part of what follows it. */
  lemma {:induction false} SplitOnPrefix(a: string, t: string, c: char)
    requires c !in a
    ensures SplitOn(a + t, c) == [a + SplitOn(t, c)[0]] + SplitOn(t, c)[1..]
  {
    if |a| == 0 {
      var parts := SplitOn(t, c);
      assert a + t == t;
      assert a + parts[0] == parts[0];
      assert [parts[0]] + parts[1..] == parts;
    } else {
      assert (a + t)[1..] == a[1..] + t;
      SplitOnPrefix(a[1..], t, c);
      assert [a[0]] + (a[1..] + SplitOn(t, c)[0]) == a + SplitOn(t, c)[0];
    }
  }

  /** Joining n >= 1 items with a one-character separator that none of them
      contains, then splitting at that character, gives back the items: the
      items come out in order with exactly n - 1 separators between them. */
  lemma {:induction false} SplitJoin(items: seq<string>, c: char)
    requires |items| >= 1
    requires forall i :: 0 <= i < |items| ==> c !in items[i]
    ensures SplitOn(Join(items, [c]), c) == items
  {
    if |items| == 1 {
      SplitOnPrefix(items[0], "", c);
      assert items[0] + "" == items[0];
    } else {
      var tail := Join(items[1..], [c]);
      SplitJoin(items[1..], c);
      assert Join(items, [c]) == items[0] + ([c] + tail);
      SplitOnPrefix(items[0], [c] + tail, c);
      assert ([c] + tail)[1..] == tail;
      assert SplitOn([c] + tail, c) == [""] + items[1..];
      assert items[0] + "" == items[0];
    }
  }
}
