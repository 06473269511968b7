/** Values shared by the daemon and the extension models: an option type, the
    argument maps carried by commands, bytes, and the ASCII character classes
    used by the Python and JavaScript string operations. */
module Common {

  datatype Option<T> = None | Some(value: T)

  /** A command's `args` object, restricted to string-valued fields. */
  type Args = map<string, string>

  type byte = x: int | 0 <= x < 256

  predicate IsUpper(c: char) { 'A' <= c <= 'Z' }

  predicate IsLower(c: char) { 'a' <= c <= 'z' }

  predicate IsDigit(c: char) { '0' <= c <= '9' }

  /** ASCII lower-casing, as Python `str.lower` and JavaScript `toLowerCase` do on ASCII. */
  function ToLower(c: char): (r: char)
    ensures !IsUpper(r)
    ensures IsUpper(c) ==> IsLower(r) && r as int == c as int + 32
    ensures !IsUpper(c) ==> r == c
  {
    if IsUpper(c) then (c as int + 32) as char else c
  }

  /** ASCII upper-casing, as Python `str.upper` does on ASCII. */
  function ToUpper(c: char): (r: char)
    ensures !IsLower(r)
    ensures IsLower(c) ==> IsUpper(r) && r as int + 32 == c as int
    ensures !IsLower(c) ==> r == c
  {
    if IsLower(c) then (c as int - 32) as char else c
  }

  function LowerString(s: string): string {
    seq(|s|, i requires 0 <= i < |s| => ToLower(s[i]))
  }

  function UpperString(s: string): string {
    seq(|s|, i requires 0 <= i < |s| => ToUpper(s[i]))
  }

  /** Case conversion works character by character, so it distributes over
      concatenation. */
  lemma LowerAppend(a: string, b: string)
    ensures LowerString(a + b) == LowerString(a) + LowerString(b)
  {
    assert forall i :: 0 <= i < |a| ==> (a + b)[i] == a[i];
    assert forall i :: |a| <= i < |a + b| ==> (a + b)[i] == b[i - |a|];
  }

  lemma UpperAppend(a: string, b: string)
    ensures UpperString(a + b) == UpperString(a) + UpperString(b)
  {
    assert forall i :: 0 <= i < |a| ==> (a + b)[i] == a[i];
    assert forall i :: |a| <= i < |a + b| ==> (a + b)[i] == b[i - |a|];
  }

  /** Lower-casing is injective on strings of upper-case letters. */
  lemma LowerInjectiveOnUpper(s: string, t: string)
    requires forall i :: 0 <= i < |s| ==> IsUpper(s[i])
    requires forall i :: 0 <= i < |t| ==> IsUpper(t[i])
    requires LowerString(s) == LowerString(t)
    ensures s == t
  {
    assert |s| == |t|;
    forall i | 0 <= i < |s| ensures s[i] == t[i] {
      assert LowerString(s)[i] == LowerString(t)[i];
    }
  }
}
