/** cJSON_Minify on the buffer: one index reads, the other writes, and the writer never overtakes. */
module MinifyBuffer {
  import opened Text
  import opened Minify

  /** The text of a buffer from an index up to its NUL at n. */
  ghost predicate HoldsText(a: array<char>, from: nat, n: nat, s: string)
    reads a
  {
    && from <= n < a.Length && n == |s|
    && (forall k :: from <= k < n ==> a[k] == s[k])
    && a[n] == '\0'
  }

  method SkipOneLineComment(a: array<char>, at: nat, ghost n: nat, ghost s: string) returns (json: nat)
    requires HoldsText(a, at, n, s) && NulFree(s) && at + 1 < n
    ensures json == at + 2 + LineComment(s[at + 2..])
  {
    json := at + 2;
    while a[json] != '\0'
      invariant json <= n && json + LineComment(s[json..]) == at + 2 + LineComment(s[at + 2..])
      decreases n - json
    {
      if a[json] == '\n' { return json + 1; }
      json := json + 1;
    }
  }

  lemma BlockStep(s: string, json: nat)
    requires json < |s|
    ensures BlockComment(s[json..])
         == if json + 1 < |s| && s[json] == '*' && s[json + 1] == '/' then 2 else 1 + BlockComment(s[json + 1..])
  {
    var t := s[json..];
    assert t[1..] == s[json + 1..] && t[0] == s[json];
    if json + 1 < |s| { assert t[1] == s[json + 1]; }
  }

  method SkipMultilineComment(a: array<char>, at: nat, ghost n: nat, ghost s: string) returns (json: nat)
    requires HoldsText(a, at, n, s) && NulFree(s) && at + 1 < n
    ensures json == at + 2 + BlockComment(s[at + 2..])
  {
    hide BlockComment;
    json := at + 2;
    while a[json] != '\0'
      invariant json <= n && json + BlockComment(s[json..]) == at + 2 + BlockComment(s[at + 2..])
      decreases n - json
    {
      BlockStep(s, json);
      if a[json] == '*' {
        if a[json + 1] == '/' { return json + 2; }
      }
      json := json + 1;
    }
    assert s[json..] == "";
  }

  /** What copying has done to the buffer when the reader stands at `json`. */
  ghost predicate Copied(now: seq<char>, before: seq<char>, at: nat, to: nat, s: string, json: nat) {
    && |now| == |before| && to <= at <= json <= |s| <= |now|
    && (forall k :: 0 <= k < to ==> now[k] == before[k])
    && (forall k :: to <= k < to + (json - at) ==> now[k] == s[at + k - to])
    && (forall k :: json <= k < |now| ==> now[k] == before[k])
  }

  /** Copy one more character. */
  method CopyChar(a: array<char>, json: nat, into: nat, ghost before: seq<char>, ghost at: nat, ghost s: string)
    requires HoldsText(a, json, |s|, s) && json < |s|
    requires at <= json <= into + at && Copied(a[..], before, at, into - (json - at), s, json)
    modifies a
    ensures HoldsText(a, json + 1, |s|, s) && Copied(a[..], before, at, into - (json - at), s, json + 1)
    ensures a[json] == old(a[json])
  {
    a[into] := a[json];
  }

  /** minify_string: copy up to and including the closing quote. */
  method CopyString(a: array<char>, at: nat, to: nat, ghost s: string) returns (json: nat, into: nat)
    requires HoldsText(a, at, |s|, s) && NulFree(s) && to <= at < |s| && s[at] == '"'
    modifies a
    ensures json == at + 1 + Body(s[at + 1..]) && into == to + (json - at)
    ensures HoldsText(a, json, |s|, s) && Copied(a[..], old(a[..]), at, to, s, json)
  {
    hide Body, Copied;
    ghost var before, end := a[..], at + 1 + Body(s[at + 1..]);
    assert Copied(a[..], before, at, to, s, at) by { NothingCopied(a[..], at, to, s); }
    CopyChar(a, at, to, before, at, s);
    json, into := at + 1, to + 1;
    while a[json] != '\0'
      invariant at + 1 <= json <= |s| && into == to + (json - at)
      invariant json + Body(s[json..]) == end
      invariant HoldsText(a, json, |s|, s) && Copied(a[..], before, at, to, s, json)
      decreases |s| - json
    {
      BodyHere(s, json);
      CopyChar(a, json, into, before, at, s);
      if a[json] == '"' {
        json, into := json + 1, into + 1;
        return;
      } else if a[json] == '\\' {
        if a[json + 1] == '"' {
          CopyChar(a, json + 1, into + 1, before, at, s);
          json, into := json + 1, into + 1;
        }
      }
      json, into := json + 1, into + 1;
    }
    BodyAtEnd(s);
  }

  lemma NothingCopied(b: seq<char>, at: nat, to: nat, s: string)
    requires to <= at <= |s| <= |b|
    ensures Copied(b, b, at, to, s, at)
  {
  }

  lemma BodyAtEnd(s: string)
    ensures Body(s[|s|..]) == 0
  {
  }

  lemma BodyHere(s: string, json: nat)
    requires json < |s|
    ensures Body(s[json..]) ==
            (if s[json] == '"' then 1
             else if s[json] == '\\' && json + 1 < |s| && s[json + 1] == '"' then 2 + Body(s[json + 2..])
             else 1 + Body(s[json + 1..]))
  {
    assert s[json..][1..] == s[json + 1..];
    if json + 1 < |s| { assert s[json..][2..] == s[json + 2..]; }
  }

  /** A slash begins a comment or is dropped by itself. */
  method SkipSlash(a: array<char>, at: nat, ghost n: nat, ghost s: string) returns (json: nat)
    requires HoldsText(a, at, n, s) && NulFree(s) && at < n && s[at] == '/'
    ensures json == Skip(s, at)
  {
    if a[at + 1] == '/' {
      json := SkipOneLineComment(a, at, n, s);
    } else if a[at + 1] == '*' {
      json := SkipMultilineComment(a, at, n, s);
    } else {
      json := at + 1;
    }
  }

  lemma SkipPlain(s: string, json: nat)
    requires json < |s|
    ensures s[json] != '/' ==> Skip(s, json) == if s[json] == '"' then json + 1 + Body(s[json + 1..]) else json + 1
    ensures Skip(s, json) <= |s|
  {
  }

  /** The reader stands at `json` and the writer at `into`; `out` is written, what is still to be read stands
      where it stood, and nothing behind the old end was touched. */
  ghost predicate Progress(a: array<char>, json: nat, into: nat, s: string, out: string, before: seq<char>)
    reads a
  {
    && into <= json && HoldsText(a, json, |s|, s) && |before| == a.Length
    && a[..into] == out && out + Minified(s[json..]) == Minified(s)
    && forall k :: |s| <= k < a.Length ==> a[k] == before[k]
  }

  /** One turn of the loop. */
  method MinifyTurn(a: array<char>, at: nat, to: nat, ghost s: string, ghost out: string, ghost before: seq<char>)
    returns (json: nat, into: nat, ghost out': string)
    requires Progress(a, at, to, s, out, before) && NulFree(s) && at < |s|
    modifies a
    ensures Progress(a, json, into, s, out', before) && json > at
  {
    hide Minified, Body, LineComment, BlockComment, Copied, Skip, NulFree;
    Turn(out, s, at);
    SkipPlain(s, at);
    json, into, out' := at, to, out;
    var c := a[json];
    if IsBlank(c) {
      json := json + 1;
    } else if c == '/' {
      json := SkipSlash(a, json, |s|, s);
    } else if c == '"' {
      ghost var earlier := a[..];
      json, into := CopyString(a, json, into, s);
      CopiedText(a[..], earlier, at, to, s, json);
      out' := out + s[at..json];
    } else {
      CopyOne(a, json, into, |s|, s);
      out' := out + s[json..json + 1];
      json, into := json + 1, into + 1;
    }
  }

  /** cJSON_Minify: afterwards the buffer holds the minified text, and nothing behind the old end of the
      text was touched. */
  method MinifyInPlace(a: array<char>)
    requires '\0' in a[..]
    modifies a
    ensures '\0' in a[..] && CString(a[..]) == Minified(old(CString(a[..])))
    ensures forall k :: |old(CString(a[..]))| < k < a.Length ==> a[k] == old(a[k])
  {
    hide Minified, NulFree;
    ghost var s := CString(a[..]);
    ghost var out := "";
    TextOf(a);
    var json: nat, into: nat := 0, 0;
    assert s[0..] == s;
    while a[json] != '\0'
      invariant Progress(a, json, into, s, out, old(a[..]))
      decreases |s| - json
    {
      json, into, out := MinifyTurn(a, json, into, s, out, old(a[..]));
    }
    ReadsNul(a, json, s);
    assert out + "" == out && s[json..] == "";
    MinifyNothing();
    MinifiedNulFree(s);
    Terminate(a, into, out);
  }

  lemma ReadsNul(a: array<char>, json: nat, s: string)
    requires HoldsText(a, json, |s|, s) && NulFree(s) && a[json] == '\0'
    ensures json == |s|
  {
  }

  method Terminate(a: array<char>, into: nat, ghost text: string)
    requires into < a.Length && a[..into] == text && NulFree(text)
    modifies a
    ensures '\0' in a[..] && CString(a[..]) == text
    ensures forall k :: into < k < a.Length ==> a[k] == old(a[k])
  {
    a[into] := '\0';
    TextIs(a[..], into, text);
  }

  method CopyOne(a: array<char>, json: nat, into: nat, ghost n: nat, ghost s: string)
    requires HoldsText(a, json, n, s) && into <= json < n
    modifies a
    ensures HoldsText(a, json + 1, n, s) && a[..into + 1] == old(a[..into]) + s[json..json + 1]
    ensures forall k :: json < k < a.Length ==> a[k] == old(a[k])
  {
    a[into] := a[json];
    assert a[..into + 1] == old(a[..into]) + s[json..json + 1];
  }

  lemma CopiedText(now: seq<char>, before: seq<char>, at: nat, to: nat, s: string, json: nat)
    requires Copied(now, before, at, to, s, json)
    ensures now[..to + (json - at)] == before[..to] + s[at..json]
    ensures forall k :: json <= k < |now| ==> now[k] == before[k]
  {
  }

  lemma TextOf(a: array<char>)
    requires '\0' in a[..]
    ensures HoldsText(a, 0, |CString(a[..])|, CString(a[..])) && NulFree(CString(a[..]))
  {
  }

  lemma TextIs(b: seq<char>, n: nat, text: string)
    requires n < |b| && b[..n] == text && NulFree(text) && b[n] == '\0'
    ensures '\0' in b && CString(b) == text
  {
    SpanLengthIs(b, c => c != '\0', n);
  }

  /** Where one turn of the loop leaves the reader. */
  function Skip(s: string, json: nat): (r: nat)
    requires json < |s|
    ensures json < r <= |s|
  {
    var next := if json + 1 < |s| then s[json + 1] else '\0';
    if s[json] == '/' && next == '/' then json + 2 + LineComment(s[json + 2..])
    else if s[json] == '/' && next == '*' then json + 2 + BlockComment(s[json + 2..])
    else if s[json] == '"' then json + 1 + Body(s[json + 1..])
    else json + 1
  }

  /** One turn of the loop on the text that is left. */
  lemma Turn(out: string, s: string, json: nat)
    requires json < |s|
    ensures out + Minified(s[json..]) ==
            (if IsBlank(s[json]) || s[json] == '/' then out + Minified(s[Skip(s, json)..])
             else out + s[json..Skip(s, json)] + Minified(s[Skip(s, json)..]))
  {
    hide Minified;
    var t, r := s[json..], Skip(s, json);
    var n := Taken(t);
    TakenIsSkip(s, json);
    assert t[..n] + t[n..] == t;
    MinifyHead(t[..n], t[n..]);
    assert t[n..] == s[r..] && t[..n] == s[json..r];
    assert out + (t[..n] + Minified(t[n..])) == out + t[..n] + Minified(t[n..]);
  }

  lemma TakenIsSkip(s: string, json: nat)
    requires json < |s|
    ensures Taken(s[json..]) == Skip(s, json) - json
  {
    hide Body, LineComment, BlockComment;
    var t := s[json..];
    assert t[1..] == s[json + 1..] && (|t| > 1 ==> t[2..] == s[json + 2..]);
  }
}
