/** ASCII stand-ins for the Python string methods the converters use:
    `str.isupper`, `str.lower`, `str.upper` and `str.title`.
    Characters outside 'A'..'Z' and 'a'..'z' are uncased and never change. */
module Ascii {

  predicate IsUpper(c: char) { 'A' <= c <= 'Z' }

  predicate IsLower(c: char) { 'a' <= c <= 'z' }

  predicate IsCased(c: char) { IsUpper(c) || IsLower(c) }

  /** `c.lower()` */
  function ToLower(c: char): (r: char)
    ensures !IsUpper(r)
    ensures IsCased(r) <==> IsCased(c)
    ensures !IsUpper(c) ==> r == c
  {
    if IsUpper(c) then (c as int + 32) as char else c
  }

  /** `c.upper()` */
  function ToUpper(c: char): (r: char)
    ensures !IsLower(r)
    ensures IsCased(r) <==> IsCased(c)
    ensures !IsLower(c) ==> r == c
  {
    if IsLower(c) then (c as int - 32) as char else c
  }

  /** Lower-casing undoes upper-casing. */
  lemma LowerOfUpper(c: char)
    ensures ToLower(ToUpper(c)) == ToLower(c)
  {
  }

  /** `s.lower()`: the same letters with no capital left; everything that is
      not a capital is copied. */
  function LowerAll(s: string): (r: string)
    ensures |r| == |s|
    ensures forall c :: c in r ==> !IsUpper(c)
    ensures forall i :: 0 <= i < |s| ==> ToUpper(r[i]) == ToUpper(s[i])
    ensures forall i :: 0 <= i < |s| && !IsUpper(s[i]) ==> r[i] == s[i]
  {
    seq(|s|, i requires 0 <= i < |s| => ToLower(s[i]))
  }

  /** `s.upper()`: the same letters with no lower-case letter left; everything
      that is not lower case is copied. */
  function UpperAll(s: string): (r: string)
    ensures |r| == |s|
    ensures forall c :: c in r ==> !IsLower(c)
    ensures forall i :: 0 <= i < |s| ==> ToLower(r[i]) == ToLower(s[i])
    ensures forall i :: 0 <= i < |s| && !IsLower(s[i]) ==> r[i] == s[i]
  {
    seq(|s|, i requires 0 <= i < |s| => ToUpper(s[i]))
  }

  /** The case `s.title()` gives position `i`: a cased character is upper-cased
      when it starts a word (it follows an uncased character or the start) and
      lower-cased otherwise. */
  function TitleAt(s: string, i: nat): char
    requires i < |s|
  {
    if !IsCased(s[i]) then s[i]
    else if i > 0 && IsCased(s[i - 1]) then ToLower(s[i])
    else ToUpper(s[i])
  }

  /** `s.title()` on ASCII text: only the case of letters changes. */
  function Title(s: string): (r: string)
    ensures |r| == |s|
    ensures forall i :: 0 <= i < |r| ==> (IsCased(r[i]) <==> IsCased(s[i]))
    ensures forall i :: 0 <= i < |s| ==> ToLower(r[i]) == ToLower(s[i])
    ensures forall i :: 0 <= i < |s| && !IsCased(s[i]) ==> r[i] == s[i]
  {
    seq(|s|, i requires 0 <= i < |s| => TitleAt(s, i))
  }

  /** Title-casing is idempotent: word boundaries depend only on which
      characters are cased, and title-casing keeps that. */
  lemma TitleIdempotent(s: string)
    ensures Title(Title(s)) == Title(s)
  {
    var t := Title(s);
    forall i | 0 <= i < |s|
      ensures Title(t)[i] == t[i]
    {
      assert TitleAt(t, i) == t[i];
    }
  }

  /** After `title()` every word starts with a capital and has no other capital. */
  lemma TitleWordStarts(s: string, i: nat)
    requires i < |s| && IsCased(s[i])
    ensures i == 0 || !IsCased(s[i - 1]) ==> IsUpper(Title(s)[i])
    ensures i > 0 && IsCased(s[i - 1]) ==> IsLower(Title(s)[i])
  {
  }
}
