/**
  The three field validators of the route module.  Python's `str.isdigit` and
  `str.strip` work on all of Unicode; here both are restricted to ASCII.
 */
module Validators {

  import opened Wrappers
  import Models

  // ---------------------------------------------------------------- nit

  const NIT_MIN_LEN: nat := 6
  const NIT_MAX_LEN: nat := 15

  /**
    A character `str.isdigit` accepts.  Python also accepts other Unicode
    digits (Arabic-Indic, fullwidth, superscripts, ...); those are not modelled.
   */
  predicate IsDigit(c: char) {
    '0' <= c <= '9'
  }

  /** `s.isdigit()`: the string is non-empty and every character is a digit. */
  predicate IsDigitString(s: string) {
    |s| > 0 && forall i :: 0 <= i < |s| ==> IsDigit(s[i])
  }

  /** `is_valid_nit`: a string (not null) of digits only, of length 6 to 15. */
  predicate IsValidNit(nit: Option<string>) {
    nit.Some? && IsDigitString(nit.value) && NIT_MIN_LEN <= |nit.value| <= NIT_MAX_LEN
  }

  /**
    A recogniser for the regular expression `^[0-9]{lo,hi}$` that consumes one
    character at a time: an independent definition of what a valid nit is.
   */
  function DigitRun(s: string, lo: nat, hi: nat): bool
    decreases |s|
  {
    if s == [] then lo == 0
    else hi > 0 && IsDigit(s[0]) && DigitRun(s[1..], if lo == 0 then 0 else lo - 1, hi - 1)
  }

  lemma {:induction false} DigitRunMeaning(s: string, lo: nat, hi: nat)
    ensures DigitRun(s, lo, hi) <==> lo <= |s| <= hi && forall i :: 0 <= i < |s| ==> IsDigit(s[i])
    decreases |s|
  {
    if s != [] && hi > 0 {
      DigitRunMeaning(s[1..], if lo == 0 then 0 else lo - 1, hi - 1);
      assert forall i :: 1 <= i < |s| ==> s[i] == s[1..][i - 1];
    }
  }

  /** A nit is valid exactly when it is present and matches `^[0-9]{6,15}$`. */
  lemma NitMatchesPattern(nit: Option<string>)
    ensures IsValidNit(nit) <==> nit.Some? && DigitRun(nit.value, 6, 15)
  {
    if nit.Some? {
      DigitRunMeaning(nit.value, 6, 15);
    }
  }

  // ------------------------------------------------------------- nombre

  /**
    An ASCII character `str.strip()` removes: tab, line feed, vertical tab,
    form feed, carriage return, the separators 0x1C-0x1F and space.  Python
    also strips Unicode whitespace such as U+0085, U+00A0 and U+2000-U+200A;
    those are not modelled.
   */
  predicate IsSpace(c: char) {
    '\t' <= c <= '\r' || '\U{1C}' <= c <= '\U{1F}' || c == ' '
  }

  /** `s.lstrip()`: the suffix left after dropping leading whitespace. */
  function LStrip(s: string): (r: string)
    ensures |r| <= |s| && r == s[|s| - |r|..]
    ensures forall i :: 0 <= i < |s| - |r| ==> IsSpace(s[i])
    ensures r != [] ==> !IsSpace(r[0])
  {
    if s != [] && IsSpace(s[0]) then LStrip(s[1..]) else s
  }

  /** `s.rstrip()`: the prefix left after dropping trailing whitespace. */
  function RStrip(s: string): (r: string)
    ensures |r| <= |s| && r == s[..|r|]
    ensures forall i :: |r| <= i < |s| ==> IsSpace(s[i])
    ensures r != [] ==> !IsSpace(r[|r| - 1])
  {
    if s != [] && IsSpace(s[|s| - 1]) then RStrip(s[..|s| - 1]) else s
  }

  /** `r` is the slice of `s` at `i`, and everything in `s` before and after it is whitespace. */
  predicate TrimmedAt(s: string, r: string, i: int) {
    && 0 <= i && i + |r| <= |s| && r == s[i..i + |r|]
    && (forall k :: 0 <= k < i ==> IsSpace(s[k]))
    && (forall k :: i + |r| <= k < |s| ==> IsSpace(s[k]))
  }

  /**
    `s.strip()`: the slice of `s` left once the leading and the trailing
    whitespace are dropped.  It is empty exactly when `s` is all whitespace;
    otherwise it starts and ends with a non-space.
   */
  function Strip(s: string): (r: string)
    ensures exists i :: TrimmedAt(s, r, i)
    ensures r == [] <==> forall i :: 0 <= i < |s| ==> IsSpace(s[i])
    ensures r != [] ==> !IsSpace(r[0]) && !IsSpace(r[|r| - 1])
  {
    var l := LStrip(s);
    var r := RStrip(l);
    TrimmedSlice(s, l, r);
    r
  }

  /**
    A suffix `l` of `s` after leading whitespace, then a prefix `r` of `l`
    before trailing whitespace, is the slice of `s` that starts where `l`
    does, with only whitespace around it.
   */
  lemma TrimmedSlice(s: string, l: string, r: string)
    requires |l| <= |s| && l == s[|s| - |l|..]
    requires forall k :: 0 <= k < |s| - |l| ==> IsSpace(s[k])
    requires |r| <= |l| && r == l[..|r|]
    requires forall k :: |r| <= k < |l| ==> IsSpace(l[k])
    ensures TrimmedAt(s, r, |s| - |l|)
  {
    var i := |s| - |l|;
    forall k | i <= k < |s|
      ensures s[k] == l[k - i]
    {
    }
  }

  /**
    `is_valid_nombre`: a string (not null) that is not empty and not all
    whitespace.  No handler calls it.
   */
  predicate IsValidNombre(nombre: Option<string>) {
    nombre.Some? && Strip(nombre.value) != ""
  }

  /** A nombre is valid exactly when it is present and has a non-space character. */
  lemma NombreValidIffNonBlank(nombre: Option<string>)
    ensures IsValidNombre(nombre) <==> nombre.Some? && exists i :: 0 <= i < |nombre.value| && !IsSpace(nombre.value[i])
  {
  }

  // ------------------------------------------------------------- estado

  /** The initial status is the `estado` column default. */
  const PENDIENTE: string := Models.DEFAULT_ESTADO
  const PROCESADO: string := "PROCESADO"
  const ERROR: string := "ERROR"

  /** The status labels, in the order the route module lists them. */
  const ESTADOS: seq<string> := [PENDIENTE, PROCESADO, ERROR]

  /** `is_valid_estado`: membership in the list of labels; null is not a member. */
  predicate IsValidEstado(estado: Option<string>) {
    estado.Some? && estado.value in ESTADOS
  }

  /** Exactly the three labels are valid, nothing else (null included). */
  lemma EstadoLabels(estado: Option<string>)
    ensures IsValidEstado(estado) <==> estado == Some("PENDIENTE") || estado == Some("PROCESADO") || estado == Some("ERROR")
  {
  }

}
