/** String splitting shared by the models. */
module Strings {

  /** `text.split(sep)` for a one-character separator. */
  function Split(text: string, sep: char): (parts: seq<string>)
    ensures |parts| >= 1
  {
    if text == "" then [""]
    else
      var rest := Split(text[1..], sep);
      if text[0] == sep then [""] + rest else [[text[0]] + rest[0]] + rest[1..]
  }

  /** The parts with a separator between each two. */
  function Joined(parts: seq<string>, sep: char): string {
    if parts == [] then "" else if |parts| == 1 then parts[0] else parts[0] + [sep] + Joined(parts[1..], sep)
  }

  predicate Free(parts: seq<string>, sep: char) {
    forall part <- parts :: sep !in part
  }

  /** Splitting is undone by joining, and no part holds the separator. */
  lemma {:induction false} SplitJoins(text: string, sep: char)
    ensures Joined(Split(text, sep), sep) == text && Free(Split(text, sep), sep)
  {
    if text != "" {
      var rest := Split(text[1..], sep);
      SplitJoins(text[1..], sep);
      assert rest == [rest[0]] + rest[1..];
      assert text == [text[0]] + text[1..];
      if text[0] == sep {
        var parts := [""] + rest;
        assert parts[1..] == rest && "" + [sep] == [sep];
      } else {
        var first := [text[0]] + rest[0];
        var parts := [first] + rest[1..];
        assert parts[1..] == rest[1..];
        assert |rest| > 1 ==> first + [sep] + Joined(rest[1..], sep) == [text[0]] + (rest[0] + [sep] + Joined(rest[1..], sep));
        assert rest[0] in rest;
        assert forall part <- rest[1..] :: part in rest;
      }
    }
  }

  /** Parts without the separator are what their joined text splits into. */
  lemma {:induction false} JoinSplits(parts: seq<string>, sep: char)
    requires parts != [] && Free(parts, sep)
    ensures Split(Joined(parts, sep), sep) == parts
  {
    assert parts[0] in parts;
    if |parts| == 1 {
      SplitOnly(parts[0], sep);
    } else {
      assert forall part <- parts[1..] :: part in parts;
      JoinSplits(parts[1..], sep);
      SplitFirst(parts[0], sep, Joined(parts[1..], sep));
    }
  }

  lemma {:induction false} SplitFirst(part: string, sep: char, rest: string)
    requires sep !in part
    ensures Split(part + [sep] + rest, sep) == [part] + Split(rest, sep)
  {
    var text := part + [sep] + rest;
    if part == "" {
      assert text[1..] == rest;
    } else {
      SplitFirst(part[1..], sep, rest);
      assert text[1..] == part[1..] + [sep] + rest;
      assert [part[0]] + part[1..] == part;
    }
  }

  lemma {:induction false} SplitOnly(part: string, sep: char)
    requires sep !in part
    ensures Split(part, sep) == [part]
  {
    if part != "" {
      SplitOnly(part[1..], sep);
      assert [part[0]] + part[1..] == part;
    }
  }

  lemma {:induction false} PartAtMost(text: string, sep: char, i: nat)
    requires i < |Split(text, sep)|
    ensures |Split(text, sep)[i]| <= |text|
  {
    if text != "" {
      var rest := Split(text[1..], sep);
      if text[0] != sep {
        PartAtMost(text[1..], sep, i);
      } else if i > 0 {
        PartAtMost(text[1..], sep, i - 1);
      }
    }
  }

  function Count(text: string, c: char): nat {
    if text == "" then 0 else (if text[0] == c then 1 else 0) + Count(text[1..], c)
  }

  lemma {:induction false} CountConcat(a: string, b: string, c: char)
    ensures Count(a + b, c) == Count(a, c) + Count(b, c)
  {
    if a == "" {
      assert a + b == b;
    } else {
      assert (a + b)[1..] == a[1..] + b;
      CountConcat(a[1..], b, c);
    }
  }

  lemma {:induction false} CountMember(text: string, c: char)
    ensures c in text <==> Count(text, c) >= 1
  {
    if text != "" {
      CountMember(text[1..], c);
    }
  }

  /** The number of parts is one more than the number of separators. */
  lemma {:induction false} SplitCount(text: string, sep: char)
    ensures |Split(text, sep)| == 1 + Count(text, sep)
  {
    if text != "" {
      SplitCount(text[1..], sep);
    }
  }
}
