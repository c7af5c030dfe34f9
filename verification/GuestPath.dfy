/** Guest paths as text: splitting, joining and the accepted alphabet. */
module GuestPath {
  const MAX_PATH: nat := 4096

  function SplitOn(s: string, d: char): (r: seq<string>)
    ensures r != []
    ensures forall p :: p in r ==> d !in p
  {
    if s == "" then [""]
    else
      var r := SplitOn(s[1..], d);
      if s[0] == d then [""] + r else [[s[0]] + r[0]] + r[1..]
  }

  function Split(s: string): (r: seq<string>)
    ensures r != []
    ensures forall p :: p in r ==> '/' !in p
  {
    SplitOn(s, '/')
  }

  function Join(parts: seq<string>): string {
    if parts == [] then ""
    else if |parts| == 1 then parts[0]
    else parts[0] + "/" + Join(parts[1..])
  }

  function PathOf(parts: seq<string>): string {
    "/" + Join(parts)
  }

  predicate SlashFree(parts: seq<string>) {
    forall p :: p in parts ==> '/' !in p
  }

  lemma {:induction false} SplitWord(w: string)
    requires '/' !in w
    ensures Split(w) == [w]
  {
    if w != "" {
      SplitWord(w[1..]);
      assert [w[0]] + w[1..] == w;
    }
  }

  lemma {:induction false} SplitThen(w: string, s: string)
    requires '/' !in w
    ensures Split(w + "/" + s) == [w] + Split(s)
  {
    if w == "" {
      assert w + "/" + s == "/" + s;
      assert ("/" + s)[1..] == s;
    } else {
      SplitThen(w[1..], s);
      var t := w + "/" + s;
      assert t[1..] == w[1..] + "/" + s;
      assert [w[0]] + w[1..] == w;
    }
  }

  lemma {:induction false} SplitJoin(parts: seq<string>)
    requires parts != [] && SlashFree(parts)
    ensures Split(Join(parts)) == parts
  {
    if |parts| == 1 {
      SplitWord(parts[0]);
    } else {
      SplitJoin(parts[1..]);
      SplitThen(parts[0], Join(parts[1..]));
      assert parts == [parts[0]] + parts[1..];
    }
  }

  /** A path splits into the empty component before its first slash and its parts. */
  lemma SplitPath(parts: seq<string>)
    requires SlashFree(parts)
    ensures Split(PathOf(parts)) == [""] + if parts == [] then [""] else parts
  {
    SplitThen("", Join(parts));
    assert "" + "/" + Join(parts) == PathOf(parts);
    assert SplitOn("", '/') == [""];
    if parts != [] {
      SplitJoin(parts);
    }
  }

  predicate SafeChar(c: char) {
    'A' <= c <= 'Z' || 'a' <= c <= 'z' || '0' <= c <= '9' ||
    c == '_' || c == '.' || c == '/' || c == '+' || c == '@' || c == ',' || c == '=' || c == ':' || c == '-'
  }

  predicate SafePath(s: string) {
    s != "" && |s| <= MAX_PATH && forall i :: 0 <= i < |s| ==> SafeChar(s[i])
  }
}
