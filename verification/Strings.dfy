/** Zero-terminated strings, and strtok on the delimiter '/'. */
module Strings {
  import opened Options

  /** The text of a string in memory: the characters before the first zero. */
  function Text(m: seq<char>): (t: string)
    ensures |t| <= |m| && '\0' !in t
    ensures |t| < |m| ==> m[|t|] == '\0'
    ensures t == m[..|t|]
  {
    if m == [] || m[0] == '\0' then "" else [m[0]] + Text(m[1..])
  }

  predicate Terminated(m: seq<char>) { '\0' in m }

  lemma {:induction false} TerminatedText(m: seq<char>)
    ensures Terminated(m) <==> |Text(m)| < |m|
  {
    if m != [] && m[0] != '\0' {
      TerminatedText(m[1..]);
      assert m == [m[0]] + m[1..];
    }
  }

  /** The text is the only zero-free prefix that a zero follows. */
  lemma {:induction false} TextIs(m: seq<char>, t: string)
    requires |t| < |m| && t == m[..|t|] && '\0' !in t && m[|t|] == '\0'
    ensures Text(m) == t
  {
    if t != "" {
      assert m[0] == t[0] && t[0] in t;
      assert t[1..] == m[1..][..|t| - 1];
      TextIs(m[1..], t[1..]);
    }
  }

  method Strlen(m: seq<char>) returns (n: nat)
    requires Terminated(m)
    ensures n == |Text(m)| < |m|
  {
    TerminatedText(m);
    n := 0;
    while m[n] != '\0'
      invariant n <= |Text(m)| < |m|
      decreases |m| - n
    {
      EndsAt(m, n);
      n := n + 1;
    }
    EndsAt(m, n);
  }

  method Strcmp(a: seq<char>, b: seq<char>) returns (same: bool)
    requires Terminated(a) && Terminated(b)
    ensures same <==> Text(a) == Text(b)
  {
    TerminatedText(a);
    TerminatedText(b);
    ghost var s, t := Text(a), Text(b);
    var i := 0;
    while a[i] != '\0' && b[i] != '\0'
      invariant i <= |s| < |a| && i <= |t| < |b| && s[..i] == t[..i]
      decreases |a| - i
    {
      assert i < |s| && i < |t|;
      if a[i] != b[i] {
        assert s[i] != t[i];
        return false;
      }
      i := i + 1;
    }
    EndsAt(a, i);
    EndsAt(b, i);
    if (a[i] == '\0' && b[i] != '\0') || (a[i] != '\0' && b[i] == '\0') {
      return false;
    } else {
      return true;
    }
  }

  lemma EndsAt(m: seq<char>, i: nat)
    requires i <= |Text(m)| < |m|
    ensures m[i] == '\0' <==> i == |Text(m)|
  {
    assert i < |Text(m)| ==> Text(m)[i] == m[i];
  }

  method Strcpy(dest: array<char>, src: seq<char>)
    requires Terminated(src) && |Text(src)| < dest.Length
    modifies dest
    ensures dest[..] == Text(src) + ['\0'] + old(dest[|Text(src)| + 1..])
  {
    TerminatedText(src);
    ghost var t := Text(src);
    var i := 0;
    while src[i] != '\0'
      invariant i <= |t| < |src| && dest[..i] == t[..i] && dest[i..] == old(dest[i..])
      decreases |src| - i
    {
      EndsAt(src, i);
      dest[i] := src[i];
      i := i + 1;
    }
    EndsAt(src, i);
    dest[i] := '\0';
    assert dest[i + 1..] == old(dest[i..])[1..];
  }

  // ----- splitting -----

  function Split(s: string): (ts: seq<string>)
    ensures |ts| >= 1
  {
    if '/' !in s then [s]
    else [s[..Before(s)]] + Split(s[Before(s) + 1..])
  }

  /** The length of the part before the first '/'. */
  function Before(s: string): (n: nat)
    ensures n <= |s| && '/' !in s[..n]
    ensures n < |s| ==> s[n] == '/'
    ensures n < |s| <==> '/' in s
  {
    if s == "" || s[0] == '/' then 0 else assert s == [s[0]] + s[1..]; 1 + Before(s[1..])
  }

  function Join(ts: seq<string>): string
    requires |ts| >= 1
  {
    if |ts| == 1 then ts[0] else ts[0] + "/" + Join(ts[1..])
  }

  predicate NoSlash(ts: seq<string>) {
    forall i :: 0 <= i < |ts| ==> '/' !in ts[i]
  }

  /** Splitting and joining undo each other. */
  lemma {:induction false} JoinSplit(s: string)
    ensures Join(Split(s)) == s && NoSlash(Split(s))
    decreases |s|
  {
    if '/' in s {
      JoinSplit(s[Before(s) + 1..]);
    }
  }

  lemma {:induction false} SplitJoin(ts: seq<string>)
    requires |ts| >= 1 && NoSlash(ts)
    ensures Split(Join(ts)) == ts
  {
    if |ts| > 1 {
      var s, rest := Join(ts), Join(ts[1..]);
      BeforeIs(s, ts[0], rest);
      assert s[..|ts[0]|] == ts[0] && s[|ts[0]| + 1..] == rest;
      SplitJoin(ts[1..]);
      assert ts == [ts[0]] + ts[1..];
    } else {
      assert '/' !in ts[0] && ts == [ts[0]];
    }
  }

  lemma {:induction false} BeforeIs(s: string, t: string, rest: string)
    requires s == t + "/" + rest && '/' !in t
    ensures Before(s) == |t| && '/' in s
  {
    assert s[|t|] == '/';
    if t != "" {
      assert s[0] == t[0] && t[0] in t;
      assert s[1..] == t[1..] + "/" + rest;
      BeforeIs(s[1..], t[1..], rest);
    }
  }

  /** strtok keeps its place between calls. */
  class Tokenizer {
    /** The static s: None for NULL. */
    var s: Option<string>

    constructor ()
      ensures s == None
    {
      s := None;
    }

    /** What further calls return. */
    ghost function Rest(): seq<string>
      reads this
    {
      match s case Some(t) => Split(t) case None => []
    }

    /** strtok(input, "/"), where None stands for NULL. */
    method Strtok(input: Option<string>) returns (token: Option<string>)
      modifies this
      ensures var ts := if input.Some? then Split(input.value) else old(Rest());
        if ts == [] then token == None && Rest() == [] else token == Some(ts[0]) && Rest() == ts[1..]
    {
      if input.Some? {
        s := input;
      } else if s == None {
        return None;
      }
      var text := s.value;
      var j := 0;
      while j < |text|
        invariant j <= |text| && '/' !in text[..j]
      {
        if text[j] == '/' {
          BeforeIs(text, text[..j], text[j + 1..]);
          s := Some(text[j + 1..]);
          return Some(text[..j]);
        }
        j := j + 1;
      }
      assert text[..|text|] == text;
      s := None;
      return Some(text);
    }
  }
}
