/** Strings cut into fields at every dollar sign, as `strings.Split` does it. */
module Fields {

  const SEPARATOR := '$'

  predicate IsField(s: string) {
    forall i :: 0 <= i < |s| ==> s[i] != SEPARATOR
  }

  function Split(s: string): (fields: seq<string>)
    ensures |fields| >= 1
  {
    if s == "" then [""]
    else
      var rest := Split(s[1..]);
      if s[0] == SEPARATOR then [""] + rest else [[s[0]] + rest[0]] + rest[1..]
  }

  function Join(fields: seq<string>): string
    requires |fields| >= 1
  {
    if |fields| == 1 then fields[0] else fields[0] + [SEPARATOR] + Join(fields[1..])
  }

  lemma {:induction false} SplitOneField(s: string)
    requires IsField(s)
    ensures Split(s) == [s]
  {
    if s != "" {
      assert s[0] != SEPARATOR;
      SplitOneField(s[1..]);
      assert [s[0]] + s[1..] == s;
    }
  }

  lemma {:induction false} SplitFirstField(s: string, rest: string)
    requires IsField(s)
    ensures Split(s + [SEPARATOR] + rest) == [s] + Split(rest)
  {
    var text := s + [SEPARATOR] + rest;
    if s == "" {
      assert text[1..] == rest;
    } else {
      assert s[0] != SEPARATOR;
      SplitFirstField(s[1..], rest);
      assert text[1..] == s[1..] + [SEPARATOR] + rest;
      assert [s[0]] + s[1..] == s;
    }
  }

  /** Splitting finds the fields that were joined. */
  lemma {:induction false} SplitAfterJoin(fields: seq<string>)
    requires |fields| >= 1 && forall i :: 0 <= i < |fields| ==> IsField(fields[i])
    ensures Split(Join(fields)) == fields
  {
    if |fields| == 1 {
      SplitOneField(fields[0]);
    } else {
      SplitAfterJoin(fields[1..]);
      SplitFirstField(fields[0], Join(fields[1..]));
      assert fields == [fields[0]] + fields[1..];
    }
  }

  lemma Assoc(u: string, v: string, w: string)
    ensures u + (v + w) == u + v + w
  {
  }

  lemma JoinLongerFirst(c: char, fields: seq<string>)
    requires |fields| >= 1
    ensures Join([[c] + fields[0]] + fields[1..]) == [c] + Join(fields)
  {
    var longer := [[c] + fields[0]] + fields[1..];
    if |fields| > 1 {
      assert longer[1..] == fields[1..];
      Assoc([c], fields[0], [SEPARATOR]);
      Assoc([c], fields[0] + [SEPARATOR], Join(fields[1..]));
    }
  }

  /** Joining the fields of a string gives the string back. */
  lemma {:induction false} JoinAfterSplit(s: string)
    ensures Join(Split(s)) == s
    ensures forall i :: 0 <= i < |Split(s)| ==> IsField(Split(s)[i])
  {
    if s != "" {
      JoinAfterSplit(s[1..]);
      var rest := Split(s[1..]);
      if s[0] == SEPARATOR {
        assert ([""] + rest)[1..] == rest;
        assert s == [SEPARATOR] + s[1..];
      } else {
        JoinLongerFirst(s[0], rest);
        assert s == [s[0]] + s[1..];
      }
    }
  }
}
