/**
 * The JavaScript string operations the components rely on: `trim`, `includes`,
 * `startsWith`, `split` on a one-character separator, `join`, `length` (in UTF-16
 * code units) and the upper-casing of a first character.
 */
module Text {

  /** The code points `String.prototype.trim` removes: the ECMAScript WhiteSpace
      (TAB, VT, FF, SPACE, NO-BREAK SPACE, ZERO WIDTH NO-BREAK SPACE and the Unicode
      space separators) and LineTerminator (LF, CR, LINE and PARAGRAPH SEPARATOR) sets. */
  predicate IsWhiteSpace(c: char) {
    var n := c as int;
    n == 0x09 || n == 0x0B || n == 0x0C || n == 0x20 || n == 0xA0 || n == 0xFEFF
    || n == 0x0A || n == 0x0D || n == 0x2028 || n == 0x2029
    || n == 0x1680 || (0x2000 <= n <= 0x200A) || n == 0x202F || n == 0x205F || n == 0x3000
  }

  predicate AllWhiteSpace(s: string) {
    forall i :: 0 <= i < |s| ==> IsWhiteSpace(s[i])
  }

  /** How many white-space characters `s` starts with. */
  function LeadingWhiteSpace(s: string): (n: nat)
    ensures n <= |s|
    ensures forall i :: 0 <= i < n ==> IsWhiteSpace(s[i])
    ensures n < |s| ==> !IsWhiteSpace(s[n])
  {
    if s == [] || !IsWhiteSpace(s[0]) then 0 else 1 + LeadingWhiteSpace(s[1..])
  }

  /** How many white-space characters `s` ends with. */
  function TrailingWhiteSpace(s: string): (n: nat)
    ensures n <= |s|
    ensures forall i :: |s| - n <= i < |s| ==> IsWhiteSpace(s[i])
    ensures n < |s| ==> !IsWhiteSpace(s[|s| - 1 - n])
  {
    if s == [] || !IsWhiteSpace(s[|s| - 1]) then 0 else 1 + TrailingWhiteSpace(s[..|s| - 1])
  }

  /** `s.trim()` */
  function Trim(s: string): (r: string)
    ensures |r| <= |s|
    ensures r == [] || (!IsWhiteSpace(r[0]) && !IsWhiteSpace(r[|r| - 1]))
  {
    var t := s[LeadingWhiteSpace(s)..];
    t[..|t| - TrailingWhiteSpace(t)]
  }

  /** The trimmed string is a slice of `s` with only white space cut away on either side,
      and it neither starts nor ends with white space. */
  lemma TrimIsSlice(s: string)
    ensures exists i, j ::
              0 <= i <= j <= |s| && Trim(s) == s[i..j] && AllWhiteSpace(s[..i]) && AllWhiteSpace(s[j..])
    ensures Trim(s) == [] || (!IsWhiteSpace(Trim(s)[0]) && !IsWhiteSpace(Trim(s)[|Trim(s)| - 1]))
  {
    var i := LeadingWhiteSpace(s);
    var t := s[i..];
    var j := i + |t| - TrailingWhiteSpace(t);
    assert Trim(s) == s[i..j];
    assert forall k :: 0 <= k < |s| - j ==> s[j..][k] == t[|t| - TrailingWhiteSpace(t) + k];
    assert AllWhiteSpace(s[j..]);
    assert AllWhiteSpace(s[..i]);
  }

  /** A string trims to the empty string exactly when it is all white space. */
  lemma TrimEmptyIff(s: string)
    ensures Trim(s) == [] <==> AllWhiteSpace(s)
  {
  }

  /** Trimming twice is trimming once. */
  lemma TrimIdempotent(s: string)
    ensures Trim(Trim(s)) == Trim(s)
  {
    var r := Trim(s);
    TrimIsSlice(s);
    assert LeadingWhiteSpace(r) == 0;
    assert r[0..] == r;
    assert TrailingWhiteSpace(r) == 0;
  }

  /** `s.startsWith(p)` */
  predicate StartsWith(s: string, p: string) {
    |p| <= |s| && s[..|p|] == p
  }

  /** `s.length`: JavaScript counts UTF-16 code units, so a code point above U+FFFF counts twice. */
  function Utf16Length(s: string): (n: nat)
    ensures |s| <= n <= 2 * |s|
  {
    if s == [] then 0
    else (if s[0] as int > 0xFFFF then 2 else 1) + Utf16Length(s[1..])
  }

  /** A string inside the Basic Multilingual Plane has one code unit per character. */
  lemma {:induction false} Utf16LengthBasic(s: string)
    requires forall i :: 0 <= i < |s| ==> s[i] as int <= 0xFFFF
    ensures Utf16Length(s) == |s|
  {
    if s != [] {
      Utf16LengthBasic(s[1..]);
    }
  }

  /** `parts.join(sep)` */
  function Join(parts: seq<string>, sep: string): string {
    if |parts| == 0 then []
    else if |parts| == 1 then parts[0]
    else parts[0] + sep + Join(parts[1..], sep)
  }

  /** `s.split(sep)` for a one-character separator: the maximal runs between separators,
      one more than there are separators; so `"".split(sep)` is `[""]`. */
  function Split(s: string, sep: char): (parts: seq<string>)
    ensures |parts| >= 1
    ensures forall k :: 0 <= k < |parts| ==> sep !in parts[k]
    ensures Join(parts, [sep]) == s
  {
    if s == [] then [[]]
    else
      var rest := Split(s[1..], sep);
      if s[0] == sep then
        [[]] + rest
      else
        var parts := [[s[0]] + rest[0]] + rest[1..];
        assert parts[1..] == rest[1..];
        assert Join(parts, [sep]) == [s[0]] + Join(rest, [sep]);
        parts
  }

  /** Splitting a join undoes it when no part contains the separator. */
  lemma {:induction false} SplitJoin(parts: seq<string>, sep: char)
    requires |parts| >= 1
    requires forall k :: 0 <= k < |parts| ==> sep !in parts[k]
    ensures Split(Join(parts, [sep]), sep) == parts
  {
    if |parts| == 1 {
      SplitNoSeparator(parts[0], sep);
    } else {
      SplitJoin(parts[1..], sep);
      SplitAtFirst(parts[0], Join(parts[1..], [sep]), sep);
      assert Join(parts, [sep]) == parts[0] + [sep] + Join(parts[1..], [sep]);
    }
  }

  /** A string without the separator splits into itself alone. */
  lemma {:induction false} SplitNoSeparator(s: string, sep: char)
    requires sep !in s
    ensures Split(s, sep) == [s]
  {
    if s != [] {
      SplitNoSeparator(s[1..], sep);
      assert [s[0]] + s[1..] == s;
    }
  }

  /** A string splits into one part exactly when it has no separator, and that part is
      the string itself. */
  lemma SplitSingleIff(s: string, sep: char)
    ensures |Split(s, sep)| == 1 <==> sep !in s
    ensures sep !in s ==> Split(s, sep) == [s]
  {
    if sep !in s {
      SplitNoSeparator(s, sep);
    }
  }

  /** The first separator ends the first part. */
  lemma {:induction false} SplitAtFirst(a: string, b: string, sep: char)
    requires sep !in a
    ensures Split(a + [sep] + b, sep) == [a] + Split(b, sep)
  {
    var s := a + [sep] + b;
    if a == [] {
      assert s[1..] == b;
    } else {
      assert s[1..] == a[1..] + [sep] + b;
      SplitAtFirst(a[1..], b, sep);
      assert [a[0]] + a[1..] == a;
    }
  }

  /** Two separator-free strings joined by one separator split back into the two. */
  lemma SplitTwo(a: string, b: string, sep: char)
    requires sep !in a && sep !in b
    ensures Split(a + [sep] + b, sep) == [a, b]
  {
    SplitAtFirst(a, b, sep);
    SplitNoSeparator(b, sep);
  }

  /** `classList.contains(token)` for a class attribute whose names are separated by single spaces. */
  predicate HasClass(className: string, token: string) {
    token in Split(className, ' ')
  }

  /** A space-free class name with a space-free class appended after a space splits into
      the two names. */
  lemma SplitClassSuffix(base: string, token: string, on: bool)
    requires ' ' !in base && ' ' !in token
    ensures Split(base + (if on then [' '] + token else []), ' ') == [base] + (if on then [token] else [])
  {
    var s := base + (if on then [' '] + token else []);
    if on {
      assert s == base + [' '] + token;
      SplitTwo(base, token, ' ');
      assert [base] + [token] == [base, token];
    } else {
      assert s == base;
      SplitNoSeparator(base, ' ');
      assert [base] + [] == [base];
    }
  }

  /** The facts about the literal token `active` the suffix lemmas need. */
  lemma ActiveToken(token: string)
    requires token == "active"
    ensures ' ' !in token && " active" == [' '] + token
  {
  }

  /** The same for the class `active`. */
  lemma SplitActiveSuffix(base: string, active: bool)
    requires ' ' !in base
    ensures Split(base + (if active then " active" else ""), ' ') == [base] + (if active then ["active"] else [])
  {
    ActiveToken("active");
    SplitClassSuffix(base, "active", active);
  }

  /** Two space-free class names, with ` active` appended. */
  lemma SplitTwoActiveSuffix(a: string, b: string, active: bool)
    requires ' ' !in a && ' ' !in b
    ensures Split(a + " " + b + (if active then " active" else ""), ' ')
         == [a, b] + (if active then ["active"] else [])
  {
    var suffix := if active then " active" else "";
    assert a + " " + b + suffix == a + [' '] + (b + suffix);
    SplitAtFirst(a, b + suffix, ' ');
    SplitActiveSuffix(b, active);
  }

  /** A base class name with ` active` appended carries the class `active`; the bare base
      name does not, unless it is `active` itself. */
  lemma ActiveSuffix(base: string, active: bool)
    requires ' ' !in base && base != "active"
    ensures HasClass(base + (if active then " active" else ""), "active") <==> active
  {
    SplitActiveSuffix(base, active);
  }

  /** Joining a class list with `active` pushed on it is appending ` active`. */
  lemma JoinActive(base: string, active: bool)
    ensures Join([base] + (if active then ["active"] else []), " ") == base + (if active then " active" else "")
  {
    if active {
      var parts := [base, "active"];
      assert parts[1..] == ["active"];
    } else {
      assert [base] + [] == [base];
    }
  }

  /** `c.toUpperCase()` for one character; only the ASCII letters are mapped. */
  function UpperChar(c: char): (u: char)
    ensures 'a' <= c <= 'z' ==> 'A' <= u <= 'Z' && u as int + 32 == c as int
    ensures !('a' <= c <= 'z') ==> u == c
  {
    if 'a' <= c <= 'z' then (c as int - 32) as char else c
  }

  /** `part.charAt(0).toUpperCase() + part.slice(1)` */
  function Capitalize(part: string): (r: string)
    ensures |r| == |part|
    ensures r != [] ==> r[0] == UpperChar(part[0]) && r[1..] == part[1..]
  {
    if part == [] then [] else [UpperChar(part[0])] + part[1..]
  }
}
