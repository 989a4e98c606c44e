/** Dotted names and their parts. */
module Paths {
  predicate NoDot(s: string) {
    '.' !in s
  }

  /** The parts between the dots; a name without dots is one part. */
  function Split(s: string): (parts: seq<string>)
    ensures parts != []
  {
    if s == "" then [""]
    else
      var rest := Split(s[1..]);
      if s[0] == '.' then [""] + rest else [[s[0]] + rest[0]] + rest[1..]
  }

  function Join(parts: seq<string>): string
    requires parts != []
  {
    if |parts| == 1 then parts[0] else parts[0] + "." + Join(parts[1..])
  }

  lemma {:induction false} JoinOfSplit(s: string)
    ensures Join(Split(s)) == s
    ensures forall i :: 0 <= i < |Split(s)| ==> NoDot(Split(s)[i])
  {
    if s != "" {
      var rest := Split(s[1..]);
      JoinOfSplit(s[1..]);
      if s[0] == '.' {
        assert Split(s)[1..] == rest;
      } else {
        assert Split(s)[1..] == rest[1..];
        assert s == [s[0]] + s[1..];
      }
    }
  }

  lemma {:induction false} SplitOfPart(part: string)
    requires NoDot(part)
    ensures Split(part) == [part]
  {
    if part != "" {
      assert part[0] in part && part == [part[0]] + part[1..];
      SplitOfPart(part[1..]);
    }
  }

  lemma {:induction false} SplitAfterPart(part: string, rest: string)
    requires NoDot(part)
    ensures Split(part + "." + rest) == [part] + Split(rest)
  {
    var s := part + "." + rest;
    if part == "" {
      assert s[1..] == rest;
    } else {
      assert part[0] in part && part == [part[0]] + part[1..];
      SplitAfterPart(part[1..], rest);
      assert s[1..] == part[1..] + "." + rest;
      assert ([part[1..]] + Split(rest))[1..] == Split(rest);
    }
  }

  /** Parts without dots survive a round trip through their dotted name. */
  lemma {:induction false} SplitOfJoin(parts: seq<string>)
    requires parts != [] && forall i :: 0 <= i < |parts| ==> NoDot(parts[i])
    ensures Split(Join(parts)) == parts
  {
    if |parts| == 1 {
      SplitOfPart(parts[0]);
    } else {
      SplitOfJoin(parts[1..]);
      SplitAfterPart(parts[0], Join(parts[1..]));
      assert parts == [parts[0]] + parts[1..];
    }
  }
}
