/** `parseQualifiedResourceName` of `utils.go`: a resource named `name` or
    `namespace/name`, split with `strings.Split(input, "/")`. */
module QualifiedName {
  import opened Base

  const Separator: char := '/'

  /** `strings.Split(s, "/")`: the pieces between separators, one more
      piece than there are separators (so `[""]` for the empty string). */
  function Split(s: string): (parts: seq<string>)
    ensures |parts| >= 1
  {
    if s == [] then [[]]
    else
      var rest := Split(s[1..]);
      if s[0] == Separator then [[]] + rest
      else [[s[0]] + rest[0]] + rest[1..]
  }

  /** `strings.Join(parts, "/")`, the inverse of `Split`. */
  function JoinParts(parts: seq<string>): string
    requires |parts| >= 1
  {
    if |parts| == 1 then parts[0] else parts[0] + [Separator] + JoinParts(parts[1..])
  }

  /** Joining the pieces gives back the input. */
  lemma {:induction false} JoinSplit(s: string)
    ensures JoinParts(Split(s)) == s
  {
    if s != [] {
      JoinSplit(s[1..]);
      var rest := Split(s[1..]);
      if s[0] != Separator && |rest| > 1 {
        assert JoinParts(rest) == rest[0] + [Separator] + JoinParts(rest[1..]);
        assert ([[s[0]] + rest[0]] + rest[1..])[1..] == rest[1..];
      }
      assert s == [s[0]] + s[1..];
    }
  }

  /** Splitting a join of slash-free pieces gives back the pieces. */
  lemma {:induction false} SplitJoin(parts: seq<string>)
    requires |parts| >= 1
    requires forall i :: 0 <= i < |parts| ==> Separator !in parts[i]
    ensures Split(JoinParts(parts)) == parts
  {
    if |parts| == 1 {
      SplitSlashFree(parts[0]);
    } else {
      SplitJoin(parts[1..]);
      SplitAfterSlashFree(parts[0], JoinParts(parts[1..]));
      assert parts == [parts[0]] + parts[1..];
    }
  }

  lemma {:induction false} SplitSlashFree(s: string)
    requires Separator !in s
    ensures Split(s) == [s]
  {
    if s != [] {
      SplitSlashFree(s[1..]);
      assert s == [s[0]] + s[1..];
    }
  }

  lemma {:induction false} SplitAfterSlashFree(a: string, b: string)
    requires Separator !in a
    ensures Split(a + [Separator] + b) == [a] + Split(b)
  {
    if a == [] {
      assert a + [Separator] + b == [Separator] + b;
    } else {
      assert (a + [Separator] + b)[1..] == a[1..] + [Separator] + b;
      SplitAfterSlashFree(a[1..], b);
      assert a == [a[0]] + a[1..];
    }
  }

  /** There is one piece more than there are separators. */
  lemma {:induction false} SplitLength(s: string)
    ensures |Split(s)| == Count(s, Separator) + 1
  {
    if s != [] {
      SplitLength(s[1..]);
    }
  }

  /** No piece contains a separator. */
  lemma {:induction false} SplitPiecesSlashFree(s: string)
    ensures forall i :: 0 <= i < |Split(s)| ==> Separator !in Split(s)[i]
  {
    if s != [] {
      SplitPiecesSlashFree(s[1..]);
      var rest := Split(s[1..]);
      if s[0] != Separator {
        assert forall i :: 1 <= i < |rest| ==> Split(s)[i] == rest[i];
      }
    }
  }

  /** The three values `parseQualifiedResourceName` returns. */
  datatype Parsed = Parsed(namespace: string, name: string, err: Option<Error>)

  /** `parseQualifiedResourceName`: on success neither component contains a
      separator; on error both are empty. */
  function ParseQualifiedResourceName(input: string): (r: Parsed)
    ensures r.err.None? ==> Separator !in r.namespace && Separator !in r.name
    ensures r.err.Some? ==> r.namespace == [] && r.name == []
  {
    SplitPiecesSlashFree(input);
    var parts := Split(input);
    if |parts| == 1 then Parsed("default", parts[0], None)
    else if |parts| != 2 then Parsed("", "", Some(InvalidQualifiedName(input)))
    else Parsed(parts[0], parts[1], None)
  }

  /** Parsing succeeds exactly when the input has at most one separator. */
  lemma ParseSucceedsIff(input: string)
    ensures ParseQualifiedResourceName(input).err.None? <==> Count(input, Separator) <= 1
  {
    SplitLength(input);
  }

  /** A name without a separator is in the `default` namespace. */
  lemma ParseUnqualified(input: string)
    requires Separator !in input
    ensures ParseQualifiedResourceName(input) == Parsed("default", input, None)
  {
    SplitSlashFree(input);
  }

  /** With exactly one separator, the namespace is what precedes it and the
      name what follows it. */
  lemma ParseQualified(input: string, i: nat)
    requires i < |input| && input[i] == Separator && Count(input, Separator) == 1
    ensures ParseQualifiedResourceName(input) == Parsed(input[..i], input[i + 1..], None)
  {
    assert input == input[..i] + [Separator] + input[i + 1..];
    CountConcat(input[..i] + [Separator], input[i + 1..], Separator);
    CountConcat(input[..i], [Separator], Separator);
    CountZero(input[..i], Separator);
    CountZero(input[i + 1..], Separator);
    SplitAfterSlashFree(input[..i], input[i + 1..]);
    SplitSlashFree(input[i + 1..]);
  }

  /** Two or more separators are an error, with both names empty. */
  lemma ParseOverqualified(input: string)
    requires Count(input, Separator) >= 2
    ensures ParseQualifiedResourceName(input) == Parsed("", "", Some(InvalidQualifiedName(input)))
  {
    SplitLength(input);
  }

  /** On success neither component contains a separator, and a qualified
      input is recovered by joining them. */
  lemma ParseComponents(input: string)
    requires ParseQualifiedResourceName(input).err.None?
    ensures var p := ParseQualifiedResourceName(input);
            && Separator !in p.namespace && Separator !in p.name
            && (Separator in input ==> p.namespace + [Separator] + p.name == input)
  {
    SplitPiecesSlashFree(input);
    SplitLength(input);
    JoinSplit(input);
    CountZero(input, Separator);
    var parts := Split(input);
    if |parts| == 1 {
      assert Separator !in parts[0];
    } else {
      assert JoinParts(parts) == parts[0] + [Separator] + parts[1];
    }
  }

  /** Round trip: slash-free components are recovered from `ns/name`, and a
      bare `name` lands in `default`. */
  lemma ParseRoundTrip(ns: string, name: string)
    requires Separator !in ns && Separator !in name
    ensures ParseQualifiedResourceName(ns + [Separator] + name) == Parsed(ns, name, None)
    ensures ParseQualifiedResourceName(name) == Parsed("default", name, None)
  {
    SplitJoin([ns, name]);
    SplitSlashFree(name);
  }

  /** No emptiness checks: `""` and `"/"` are accepted. */
  lemma ParseEmptyComponents()
    ensures ParseQualifiedResourceName("") == Parsed("default", "", None)
    ensures ParseQualifiedResourceName("/") == Parsed("", "", None)
  {
  }
}
