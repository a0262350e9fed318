/** Splitting strings. */
module Text {

  /** String.prototype.split by one character. */
  function Split(s: string, sep: char): (parts: seq<string>)
    ensures parts != []
  {
    if s == "" then [""]
    else if s[0] == sep then [""] + Split(s[1..], sep)
    else
      var rest := Split(s[1..], sep);
      [[s[0]] + rest[0]] + rest[1..]
  }

  lemma {:induction false} SplitHasNone(s: string, sep: char)
    ensures forall k :: 0 <= k < |Split(s, sep)| ==> sep !in Split(s, sep)[k]
  {
    if s != "" {
      SplitHasNone(s[1..], sep);
    }
  }

  lemma HeadAndTail(c: string, rest: seq<string>, more: seq<string>)
    requires rest != []
    ensures [c + (rest + more)[0]] + (rest + more)[1..] == [c + rest[0]] + rest[1..] + more
  {
    assert (rest + more)[1..] == rest[1..] + more;
  }

  /** One step of split. */
  lemma SplitFirst(s: string, sep: char)
    requires s != ""
    ensures Split(s, sep)
         == if s[0] == sep then [""] + Split(s[1..], sep) else [[s[0]] + Split(s[1..], sep)[0]] + Split(s[1..], sep)[1..]
  {
  }

  lemma {:induction false} SplitConcat(a: string, sep: char, b: string)
    ensures Split(a + [sep] + b, sep) == Split(a, sep) + Split(b, sep)
  {
    var s := a + [sep] + b;
    if a == "" {
      assert s[1..] == b;
    } else {
      SplitFirst(a, sep);
      SplitFirst(s, sep);
      SplitConcat(a[1..], sep, b);
      assert s[1..] == a[1..] + [sep] + b;
      assert s[0] == a[0];
      var rest := Split(a[1..], sep);
      hide Split;
      if a[0] != sep {
        HeadAndTail([a[0]], rest, Split(b, sep));
      } else {
        assert [""] + (rest + Split(b, sep)) == [""] + rest + Split(b, sep);
      }
    }
  }

  lemma {:induction false} SplitNone(s: string, sep: char)
    requires sep !in s
    ensures Split(s, sep) == [s]
  {
    if s != "" {
      SplitNone(s[1..], sep);
      assert [s[0]] + s[1..] == s;
    }
  }
}
