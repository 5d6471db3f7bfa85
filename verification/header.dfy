/** The string handling of the `Authorization` header: JavaScript's
    `split(' ')` and the choice of its second field as the bearer token. */
module Header {
  import opened Optional

  /** The number of spaces in `s`. */
  function Spaces(s: string): nat {
    if |s| == 0 then 0 else (if s[0] == ' ' then 1 else 0) + Spaces(s[1..])
  }

  /** Glues `parts` back together with one space between neighbours; the
      inverse of `Split`. */
  function Join(parts: seq<string>): string
    requires |parts| > 0
  {
    if |parts| == 1 then parts[0] else parts[0] + " " + Join(parts[1..])
  }

  /** `s.split(' ')`: the maximal space-free pieces of `s`, in order, with an
      empty piece wherever two spaces touch or `s` starts or ends with one. */
  function Split(s: string): (parts: seq<string>)
    ensures |parts| == Spaces(s) + 1
    ensures forall i :: 0 <= i < |parts| ==> ' ' !in parts[i]
  {
    if |s| == 0 then [""]
    else
      var rest := Split(s[1..]);
      if s[0] == ' ' then [""] + rest
      else [[s[0]] + rest[0]] + rest[1..]
  }

  /** The token of `authHeader && authHeader.split(' ')[1]` as far as the
      truth test `!token` sees it: an absent header, an empty header, a header
      without a space and an empty second field all give no token. */
  function BearerToken(header: Option<string>): (token: Option<string>)
    ensures token.Some? ==> token.value != "" && ' ' !in token.value
  {
    match header
    case None => None
    case Some(h) =>
      var parts := Split(h);
      if |parts| >= 2 && parts[1] != "" then Some(parts[1]) else None
  }

  /** Splitting and joining again gives back the header. */
  lemma {:induction false} JoinSplit(s: string)
    ensures Join(Split(s)) == s
  {
    if |s| == 0 {
    } else {
      var rest := Split(s[1..]);
      JoinSplit(s[1..]);
      if s[0] == ' ' {
        assert ([""] + rest)[1..] == rest;
      } else {
        var parts := [[s[0]] + rest[0]] + rest[1..];
        if |rest| == 1 {
          assert Join(parts) == [s[0]] + rest[0];
        } else {
          assert parts[1..] == rest[1..];
          assert Join(rest) == rest[0] + " " + Join(rest[1..]);
        }
        assert s == [s[0]] + s[1..];
      }
    }
  }

  /** A space-free prefix is glued onto the first piece of what follows it. */
  lemma {:induction false} SplitSpaceFreePrefix(p: string, t: string)
    requires ' ' !in p
    ensures Split(p + t) == [p + Split(t)[0]] + Split(t)[1..]
  {
    if |p| == 0 {
      assert p + t == t;
      assert p + Split(t)[0] == Split(t)[0];
      assert Split(t) == [Split(t)[0]] + Split(t)[1..];
    } else {
      assert (p + t)[1..] == p[1..] + t;
      assert (p + t)[0] == p[0] != ' ';
      SplitSpaceFreePrefix(p[1..], t);
      assert [p[0]] + (p[1..] + Split(t)[0]) == p + Split(t)[0];
    }
  }

  /** Splitting pieces that were joined gives back the pieces: `Split` loses
      nothing when no piece holds a space. */
  lemma {:induction false} SplitJoin(parts: seq<string>)
    requires |parts| > 0
    requires forall i :: 0 <= i < |parts| ==> ' ' !in parts[i]
    ensures Split(Join(parts)) == parts
  {
    if |parts| == 1 {
      SplitSpaceFreePrefix(parts[0], "");
      assert parts[0] + "" == parts[0];
    } else {
      var tail := Join(parts[1..]);
      SplitJoin(parts[1..]);
      assert Split(" " + tail) == [""] + Split(tail) by {
        assert (" " + tail)[1..] == tail;
      }
      assert parts[0] + " " + tail == parts[0] + (" " + tail);
      SplitSpaceFreePrefix(parts[0], " " + tail);
      assert Split(" " + tail)[0] == "" && Split(" " + tail)[1..] == parts[1..];
      assert parts[0] + "" == parts[0];
      assert parts == [parts[0]] + parts[1..];
    }
  }

  /** `Authorization: <scheme> <token>` with a space-free scheme and a
      non-empty space-free token yields exactly that token. */
  lemma SchemeAndToken(scheme: string, token: string)
    requires ' ' !in scheme && ' ' !in token && token != ""
    ensures BearerToken(Some(scheme + " " + token)) == Some(token)
  {
    SplitJoin([scheme, token]);
    assert Join([scheme, token]) == scheme + " " + token;
  }

  /** A header without a space has no second field, hence no token. */
  lemma NoSpaceNoToken(h: string)
    requires ' ' !in h
    ensures BearerToken(Some(h)) == None
  {
    SplitJoin([h]);
  }
}
