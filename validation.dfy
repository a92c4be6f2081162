/**
 * Validation of a task payload as it arrives in a request body.
 *
 * The body is untyped: each of `title`, `description` and `completed` may be
 * a string, a boolean, some other JSON value, or missing altogether.
 */
module Validation {

  /** One untyped field of a request body. `Other` stands for numbers, null,
      objects and arrays; `Absent` for a key that is not there (undefined). */
  datatype Value = Str(s: string) | Bool(b: bool) | Other | Absent

  /** The three fields destructured from the request body. */
  datatype Body = Body(title: Value, description: Value, completed: Value)

  /** The characters String.prototype.trim strips: the WhiteSpace and
      LineTerminator code points of ECMAScript (sections 12.2 and 12.3 of
      ECMA-262), with the Unicode "Zs" category written out. */
  predicate IsWhitespace(c: char)
  {
    c == '\t' || c == '\n' || c == '\U{000B}' || c == '\U{000C}' || c == '\r' ||
    c == ' ' || c == '\U{00A0}' || c == '\U{1680}' ||
    ('\U{2000}' <= c <= '\U{200A}') ||
    c == '\U{2028}' || c == '\U{2029}' || c == '\U{202F}' || c == '\U{205F}' ||
    c == '\U{3000}' || c == '\U{FEFF}'
  }

  /** True when every character of `s` is whitespace (vacuously for ""). */
  predicate AllWhitespace(s: string)
  {
    forall i :: 0 <= i < |s| ==> IsWhitespace(s[i])
  }

  /** Drops leading whitespace. */
  function TrimStart(s: string): string
    decreases |s|
  {
    if s != [] && IsWhitespace(s[0]) then TrimStart(s[1..]) else s
  }

  /** Drops trailing whitespace. */
  function TrimEnd(s: string): string
    decreases |s|
  {
    if s != [] && IsWhitespace(s[|s| - 1]) then TrimEnd(s[..|s| - 1]) else s
  }

  /** String.prototype.trim. */
  function Trim(s: string): string
  {
    TrimEnd(TrimStart(s))
  }

  /** TrimStart keeps a suffix of its input, everything it drops is
      whitespace, and what it keeps does not start with whitespace. */
  lemma {:induction false} TrimStartSpec(s: string)
    ensures var r := TrimStart(s);
      |r| <= |s| &&
      (forall i :: 0 <= i < |r| ==> r[i] == s[|s| - |r| + i]) &&
      (forall i :: 0 <= i < |s| - |r| ==> IsWhitespace(s[i])) &&
      (r == [] || !IsWhitespace(r[0]))
    decreases |s|
  {
    if s != [] && IsWhitespace(s[0]) {
      var tail := s[1..];
      TrimStartSpec(tail);
      var r := TrimStart(tail);
      assert TrimStart(s) == r;
      assert forall i :: 0 <= i < |r| ==> r[i] == s[|s| - |r| + i];
      assert forall i :: 1 <= i < |s| - |r| ==> tail[i - 1] == s[i];
    }
  }

  /** TrimEnd keeps a prefix of its input, everything it drops is
      whitespace, and what it keeps does not end with whitespace. */
  lemma {:induction false} TrimEndSpec(s: string)
    ensures var r := TrimEnd(s);
      |r| <= |s| &&
      (forall i :: 0 <= i < |r| ==> r[i] == s[i]) &&
      (forall i :: |r| <= i < |s| ==> IsWhitespace(s[i])) &&
      (r == [] || !IsWhitespace(r[|r| - 1]))
    decreases |s|
  {
    if s != [] && IsWhitespace(s[|s| - 1]) {
      var init := s[..|s| - 1];
      TrimEndSpec(init);
      assert TrimEnd(s) == TrimEnd(init);
      assert forall i :: 0 <= i < |init| ==> init[i] == s[i];
    }
  }

  /** `s.trim() === ""` holds exactly when `s` holds nothing but whitespace. */
  lemma {:induction false} TrimEmptyIff(s: string)
    ensures Trim(s) == "" <==> AllWhitespace(s)
  {
    var x := TrimStart(s);
    TrimStartSpec(s);
    TrimEndSpec(x);
    if Trim(s) == "" {
      // x is all whitespace; since its first character is not, it is empty
      assert x == [];
    } else {
      assert x != [] && !IsWhitespace(x[0]);
      assert !IsWhitespace(s[|s| - |x|]);
    }
  }

  /** A string that is not blank: at least one character is not whitespace. */
  predicate HasText(s: string)
  {
    exists i :: 0 <= i < |s| && !IsWhitespace(s[i])
  }

  /** The validation helper. For a string, `!title` means `title == ""`; for
      any other value `typeof title !== "string"` already rejects it, so the
      truthiness of non-strings never decides the outcome. */
  predicate ValidateTaskData(body: Body)
  {
    !(body.title.Absent? || (body.title.Str? && body.title.s == "") ||
      !body.title.Str? || Trim(body.title.s) == "" ||
      body.description.Absent? || (body.description.Str? && body.description.s == "") ||
      !body.description.Str? || Trim(body.description.s) == "" ||
      !body.completed.Bool?)
  }

  /** A payload is accepted iff the title and the description are strings
      with a non-whitespace character and `completed` is a real boolean. */
  lemma ValidateTaskDataIff(body: Body)
    ensures ValidateTaskData(body) <==>
      body.title.Str? && HasText(body.title.s) &&
      body.description.Str? && HasText(body.description.s) &&
      body.completed.Bool?
  {
    if body.title.Str? {
      TrimEmptyIff(body.title.s);
    }
    if body.description.Str? {
      TrimEmptyIff(body.description.s);
    }
  }
}
