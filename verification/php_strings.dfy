/**
 * The PHP built-ins the router and the link builder rely on, written out as
 * total functions on `string`: `empty()` on a string, `strtolower`, `trim`
 * with a character list of one character, `explode`, `implode` and
 * `str_replace` of one character by another.
 */
module PhpStrings {

  /** PHP `empty()` on a string: "" and "0" are empty. A NULL argument is
      modelled as "", which `empty()` treats the same way. */
  predicate Empty(s: string) {
    s == "" || s == "0"
  }

  predicate IsUpper(c: char) {
    'A' <= c <= 'Z'
  }

  /** A string with no ASCII capital letter, the fixed points of `ToLower`. */
  predicate IsLowerCase(s: string) {
    forall i :: 0 <= i < |s| ==> !IsUpper(s[i])
  }

  function LowerChar(c: char): char {
    if IsUpper(c) then (c as int + 32) as char else c
  }

  /** `strtolower`: ASCII capitals become small letters, every other
      character is kept. */
  function ToLower(s: string): (r: string)
    ensures |r| == |s| && IsLowerCase(r)
    ensures forall i :: 0 <= i < |s| && !IsUpper(s[i]) ==> r[i] == s[i]
    ensures forall i :: 0 <= i < |s| && IsUpper(s[i]) ==> r[i] as int == s[i] as int + 32
    ensures IsLowerCase(s) ==> r == s
  {
    seq(|s|, i requires 0 <= i < |s| => LowerChar(s[i]))
  }

  /** `ltrim($s, $c)`: drops every leading `c`. */
  function TrimStart(s: string, c: char): (r: string)
    ensures |r| <= |s| && r == s[|s| - |r|..]
    ensures forall i :: 0 <= i < |s| - |r| ==> s[i] == c
    ensures r == [] || r[0] != c
    decreases |s|
  {
    if s != [] && s[0] == c then
      var r := TrimStart(s[1..], c);
      assert forall i :: 1 <= i < |s| ==> s[i] == s[1..][i - 1];
      r
    else s
  }

  /** `rtrim($s, $c)`: drops every trailing `c`. */
  function TrimEnd(s: string, c: char): (r: string)
    ensures |r| <= |s| && r == s[..|r|]
    ensures forall i :: |r| <= i < |s| ==> s[i] == c
    ensures r == [] || r[|r| - 1] != c
    decreases |s|
  {
    if s != [] && s[|s| - 1] == c then TrimEnd(s[..|s| - 1], c) else s
  }

  /** `trim($s, $c)`: drops every leading and every trailing `c`. */
  function Trim(s: string, c: char): string {
    TrimEnd(TrimStart(s, c), c)
  }

  /** `implode($sep, $parts)`. */
  function Implode(parts: seq<string>, sep: char): string
    decreases |parts|
  {
    if |parts| == 0 then ""
    else if |parts| == 1 then parts[0]
    else parts[0] + [sep] + Implode(parts[1..], sep)
  }

  /** `explode($sep, $s)`: the pieces between separators, in order; the empty
      string gives one empty piece. Joining the pieces gives `s` back. */
  function Explode(s: string, sep: char): (parts: seq<string>)
    ensures |parts| >= 1
    ensures forall i :: 0 <= i < |parts| ==> sep !in parts[i]
    ensures Implode(parts, sep) == s
    decreases |s|
  {
    if s == [] then [""]
    else if s[0] == sep then
      var rest := Explode(s[1..], sep);
      assert [s[0]] + s[1..] == s;
      [""] + rest
    else
      var rest := Explode(s[1..], sep);
      assert [s[0]] + s[1..] == s;
      [[s[0]] + rest[0]] + rest[1..]
  }

  /** `str_replace('-', '_', $s)`. */
  function ReplaceHyphens(s: string): (r: string)
    ensures |r| == |s| && '-' !in r
    ensures forall i :: 0 <= i < |s| && s[i] != '-' ==> r[i] == s[i]
    ensures forall i :: 0 <= i < |s| && s[i] == '-' ==> r[i] == '_'
    ensures '-' !in s ==> r == s
    ensures Empty(r) <==> Empty(s)
  {
    seq(|s|, i requires 0 <= i < |s| => if s[i] == '-' then '_' else s[i])
  }

  /** One leading `c` makes no difference to `ltrim`. */
  lemma TrimStartOnce(c: char, s: string)
    ensures TrimStart([c] + s, c) == TrimStart(s, c)
  {
    assert ([c] + s)[1..] == s;
  }

  /** One trailing `c` makes no difference to `rtrim`. */
  lemma TrimEndOnce(s: string, c: char)
    ensures TrimEnd(s + [c], c) == TrimEnd(s, c)
  {
    assert (s + [c])[..|s|] == s;
  }

  /** A piece without a separator explodes to itself. */
  lemma {:induction false} ExplodeSingle(p: string, sep: char)
    requires sep !in p
    ensures Explode(p, sep) == [p]
    decreases |p|
  {
    if p != [] {
      ExplodeSingle(p[1..], sep);
      assert [p[0]] + p[1..] == p;
    }
  }

  /** Exploding `p + sep + s` splits off `p` as the first piece. */
  lemma {:induction false} ExplodeAfterPiece(p: string, sep: char, s: string)
    requires sep !in p
    ensures Explode(p + [sep] + s, sep) == [p] + Explode(s, sep)
    decreases |p|
  {
    var t := p + [sep] + s;
    if p == [] {
      assert t[1..] == s;
    } else {
      assert t[1..] == p[1..] + [sep] + s;
      ExplodeAfterPiece(p[1..], sep, s);
      assert [p[0]] + p[1..] == p;
    }
  }

  /** `explode` undoes `implode` when no piece holds the separator and there is
      at least one piece. */
  lemma {:induction false} ExplodeImplode(parts: seq<string>, sep: char)
    requires |parts| >= 1
    requires forall i :: 0 <= i < |parts| ==> sep !in parts[i]
    ensures Explode(Implode(parts, sep), sep) == parts
    decreases |parts|
  {
    if |parts| == 1 {
      ExplodeSingle(parts[0], sep);
    } else {
      ExplodeImplode(parts[1..], sep);
      ExplodeAfterPiece(parts[0], sep, Implode(parts[1..], sep));
      assert [parts[0]] + parts[1..] == parts;
    }
  }
}
