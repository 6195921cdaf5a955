/** Request path cleaning (internal/requestpath/cleaner.go). */
module RequestPath {
  import opened Basics
  import Paths

  datatype Cleaned = Cleaned(value: string, allowsEntryFallback: bool)

  // ---- Percent decoding --------------------------------------------------

  function HexDigit(c: char): Option<nat> {
    if '0' <= c <= '9' then Some((c - '0') as nat)
    else if 'a' <= c <= 'f' then Some((c - 'a') as nat + 10)
    else if 'A' <= c <= 'F' then Some((c - 'A') as nat + 10)
    else None
  }

  /** url.PathUnescape: None when an escape is not two hexadecimal digits. */
  function Unescape(s: string): Option<string> {
    if s == "" then Some("")
    else if s[0] != '%' then
      match Unescape(s[1..]) {
        case None => None
        case Some(rest) => Some([s[0]] + rest)
      }
    else if |s| < 3 then None
    else
      match (HexDigit(s[1]), HexDigit(s[2]), Unescape(s[3..])) {
        case (Some(high), Some(low), Some(rest)) =>
          var code := (high % 16) * 16 + low % 16;
          Some([code as char] + rest)
        case _ => None
      }
  }

  function Decode(raw: string): string {
    match Unescape(raw) {
      case Some(decoded) => decoded
      case None => raw
    }
  }

  function ReplaceBackslashes(s: string): string {
    seq(|s|, i requires 0 <= i < |s| => if s[i] == '\\' then '/' else s[i])
  }

  function Prepare(trimmed: string): string {
    var decoded := if '%' in trimmed then Decode(trimmed) else trimmed;
    if '\\' in decoded then ReplaceBackslashes(decoded) else decoded
  }

  // ---- The two routes ----------------------------------------------------

  function LastIndexOf(s: string, c: char): (i: int)
    ensures -1 <= i < |s|
    ensures i >= 0 ==> s[i] == c
    ensures forall k :: i < k < |s| ==> s[k] != c
  {
    if s == "" then -1
    else if s[|s| - 1] == c then |s| - 1
    else LastIndexOf(s[..|s| - 1], c)
  }

  predicate HasExtension(value: string) {
    var slash := LastIndexOf(value, '/');
    var dot := LastIndexOf(value, '.');
    dot > slash && dot != -1 && dot > 0
  }

  function TrimLeadingSlash(value: string): string {
    TrimPrefix(value, "/")
  }

  function StripSingleLeadingSlash(raw: string): Option<string> {
    if raw == "" || raw == "/" || raw == "." then None
    else if raw[0] != '/' then Some(raw)
    else if |raw| == 1 || raw[1] == '/' then None
    else Some(raw[1..])
  }

  predicate RejectsFastPathValue(value: string) {
    value == "" || HasSuffix(value, "/") || '\\' in value
  }

  function CanonicalValue(raw: string): Option<string> {
    match StripSingleLeadingSlash(raw) {
      case None => None
      case Some(value) =>
        if RejectsFastPathValue(value) || !Paths.CleanRelative(value) then None else Some(value)
    }
  }

  function FastClean(raw: string): Option<Cleaned> {
    match CanonicalValue(raw) {
      case None => None
      case Some(value) => Some(Cleaned(value, !HasExtension(value)))
    }
  }

  function SlowClean(prepared: string): Cleaned {
    var clean := Paths.Clean("/" + TrimLeadingSlash(prepared));
    if clean == "/" || clean == "." then Cleaned("", true)
    else
      var value := TrimPrefix(clean, "/");
      Cleaned(value, HasSuffix(prepared, "/") || !HasExtension(value))
  }

  function Clean(raw: string): Cleaned {
    var trimmed := TrimSpace(raw);
    if trimmed == "" then Cleaned("", true)
    else
      var prepared := Prepare(trimmed);
      match FastClean(prepared) {
        case Some(cleaned) => cleaned
        case None => SlowClean(prepared)
      }
  }

  // ---- Properties --------------------------------------------------------

  lemma PreparedHasNoBackslash(trimmed: string)
    ensures '\\' !in Prepare(trimmed)
  {
  }

  lemma SlowCleanShape(prepared: string)
    ensures var c := SlowClean(prepared);
            (c.value == "" && c.allowsEntryFallback) || Paths.CleanRelative(c.value)
  {
    Paths.CleanRootedShape(TrimLeadingSlash(prepared));
  }

  lemma CanonicalEnds(value: string)
    requires Paths.CleanRelative(value)
    ensures value != "" && value[0] != '/' && !HasSuffix(value, "/")
  {
    Paths.CanonicalIsSettled(value);
    if HasSuffix(value, "/") {
      var head := value[..|value| - 1];
      assert value == head + ['/'] + "";
      SplitTrailing(head);
    }
  }

  lemma {:induction false} SplitTrailing(head: string)
    ensures "" in Split(head + ['/'] + "", '/')
    decreases |head|
  {
    var i := IndexOf(head, '/');
    if i < |head| {
      assert head + ['/'] + "" == head[..i] + ['/'] + (head[i + 1..] + ['/'] + "");
      SplitCons(head[..i], head[i + 1..] + ['/'] + "", '/');
      SplitTrailing(head[i + 1..]);
    } else {
      SplitCons(head, "", '/');
      SplitWhole("", '/');
    }
  }

  lemma CanonicalValueOf(value: string, prepared: string)
    requires Paths.CleanRelative(value) && '\\' !in value
    requires prepared == value || prepared == "/" + value
    ensures CanonicalValue(prepared) == Some(value)
  {
    CanonicalEnds(value);
    SplitWhole(".", '/');
    assert value == "." ==> "." in Split(value, '/');
  }

  lemma SlowOnCanonical(value: string, prepared: string)
    requires Paths.CleanRelative(value)
    requires prepared == value || prepared == "/" + value
    ensures SlowClean(prepared) == Cleaned(value, !HasExtension(value))
  {
    CanonicalEnds(value);
    Paths.CleanKeepsCanonical(value);
    assert TrimLeadingSlash(prepared) == value;
    assert HasSuffix(prepared, "/") ==> HasSuffix(value, "/");
  }

  /** The fast route accepts exactly the inputs the slow route leaves as they are
      (but for one leading slash), and then answers the same. */
  lemma FastRouteAgrees(prepared: string)
    requires '\\' !in prepared
    ensures FastClean(prepared).Some? ==> FastClean(prepared).value == SlowClean(prepared)
    ensures FastClean(prepared).Some? <==>
            var v := SlowClean(prepared).value; v != "" && (prepared == v || prepared == "/" + v)
  {
    SlowCleanShape(prepared);
    var v := SlowClean(prepared).value;
    var accepted := CanonicalValue(prepared);
    if accepted.Some? {
      assert prepared == accepted.value || prepared == "/" + accepted.value;
      SlowOnCanonical(accepted.value, prepared);
    } else if v != "" && (prepared == v || prepared == "/" + v) {
      CanonicalValueOf(v, prepared);
    }
  }

  /** Dropping the fast route changes no answer. */
  lemma CleanIsSlowClean(raw: string)
    ensures var trimmed := TrimSpace(raw);
            Clean(raw) == if trimmed == "" then Cleaned("", true) else SlowClean(Prepare(trimmed))
  {
    PreparedHasNoBackslash(TrimSpace(raw));
    FastRouteAgrees(Prepare(TrimSpace(raw)));
  }

  /** Every cleaned value is empty, and then admits the entry, or a relative path
      whose segments are neither empty nor "." nor "..". */
  lemma CleanShape(raw: string)
    ensures var c := Clean(raw);
            if c.value == "" then c.allowsEntryFallback
            else Paths.CleanRelative(c.value) && c.value[0] != '/' && !HasSuffix(c.value, "/")
  {
    CleanIsSlowClean(raw);
    if TrimSpace(raw) != "" {
      SlowCleanShape(Prepare(TrimSpace(raw)));
    }
    if Clean(raw).value != "" {
      CanonicalEnds(Clean(raw).value);
    }
  }

  lemma {:induction false} UnescapeShrinks(s: string)
    ensures var r := Unescape(s);
            r.Some? ==> |r.value| <= |s| && (|r.value| == |s| ==> r.value == s)
    decreases |s|
  {
    if s != "" {
      if s[0] != '%' {
        UnescapeShrinks(s[1..]);
        assert s == [s[0]] + s[1..];
      } else if |s| >= 3 {
        UnescapeShrinks(s[3..]);
      }
    }
  }

  /** Preparing makes a string no longer, and keeps one without backslashes unless it gets shorter. */
  lemma PrepareShrinks(s: string)
    ensures |Prepare(s)| <= |s|
    ensures |Prepare(s)| == |s| && '\\' !in s ==> Prepare(s) == s
  {
    UnescapeShrinks(s);
  }

  lemma TrimShrinks(s: string)
    ensures |TrimSpace(s)| <= |s|
    ensures |TrimSpace(s)| == |s| ==> TrimSpace(s) == s
  {
    TrimLeftMeaning(s);
    TrimRightMeaning(TrimLeft(s));
  }

  lemma SlowCleanShrinks(prepared: string)
    ensures |SlowClean(prepared).value| <= |prepared|
    ensures '\\' !in prepared ==> '\\' !in SlowClean(prepared).value
  {
    Paths.CleanRootedShrinks(TrimLeadingSlash(prepared), '\\');
    Paths.CleanRootedShape(TrimLeadingSlash(prepared));
  }

  lemma CleanedHasNoBackslash(raw: string)
    ensures '\\' !in Clean(raw).value
  {
    CleanIsSlowClean(raw);
    PreparedHasNoBackslash(TrimSpace(raw));
    SlowCleanShrinks(Prepare(TrimSpace(raw)));
  }

  /** Cleaning a cleaned value again keeps it if and only if it has no outer white space and
      nothing left to decode. */
  lemma CleanTwice(raw: string)
    ensures var v := Clean(raw).value;
            Clean(v).value == v <==> TrimSpace(v) == v && Prepare(v) == v
  {
    var v := Clean(raw).value;
    CleanShape(raw);
    CleanIsSlowClean(v);
    if TrimSpace(v) == v && Prepare(v) == v {
      if v != "" {
        Paths.CleanKeepsCanonical(v);
      }
    } else if Clean(v).value == v {
      CleanedHasNoBackslash(raw);
      KeptIsPrepared(v);
    }
  }

  lemma KeptIsPrepared(v: string)
    requires '\\' !in v && v == if TrimSpace(v) == "" then "" else SlowClean(Prepare(TrimSpace(v))).value
    ensures TrimSpace(v) == v && Prepare(v) == v
  {
    TrimShrinks(v);
    PrepareShrinks(TrimSpace(v));
    SlowCleanShrinks(Prepare(TrimSpace(v)));
  }

  /** "/ a" cleans to " a", and that to "a". */
  lemma ExposedSpaceIsTrimmed()
    ensures Clean("/ a").value == " a" && Clean(" a").value == "a"
  {
    TrimmedIsFixed("/ a");
    SplitWhole(" a", '/');
    CanonicalValueOf(" a", "/ a");
    assert TrimLeft(" a") == "a" by {
      assert " a"[1..] == "a";
    }
    TrimmedIsFixed("a");
    SplitWhole("a", '/');
    CanonicalValueOf("a", "a");
  }

  // ---- Decoding undoes escaping -----------------------------------------------------------

  function UpperHex(n: nat): char
    requires n < 16
  {
    "0123456789ABCDEF"[n]
  }

  lemma UpperHexIsDigit(n: nat)
    requires n < 16
    ensures HexDigit(UpperHex(n)) == Some(n)
  {
  }

  predicate AllBytes(s: string) {
    forall i :: 0 <= i < |s| ==> s[i] as int < 256
  }

  /** Percent-encoding of bytes: everything but the plain characters, and the percent sign. */
  function Escape(s: string, plain: char -> bool): string
    requires AllBytes(s)
  {
    if s == "" then ""
    else
      (if plain(s[0]) && s[0] != '%' then [s[0]] else ['%', UpperHex(s[0] as int / 16), UpperHex(s[0] as int % 16)])
      + Escape(s[1..], plain)
  }

  lemma UnescapeByte(c: char, rest: string)
    requires c as int < 256
    ensures var s := ['%', UpperHex(c as int / 16), UpperHex(c as int % 16)] + rest;
            Unescape(s) == if Unescape(rest).Some? then Some([c] + Unescape(rest).value) else None
  {
    var s := ['%', UpperHex(c as int / 16), UpperHex(c as int % 16)] + rest;
    UpperHexIsDigit(c as int / 16);
    UpperHexIsDigit(c as int % 16);
    assert s[3..] == rest;
    assert (c as int / 16) * 16 + c as int % 16 == c as int;
  }

  lemma {:induction false} UnescapeUndoesEscape(s: string, plain: char -> bool)
    requires AllBytes(s)
    ensures Unescape(Escape(s, plain)) == Some(s)
  {
    if s != "" {
      UnescapeUndoesEscape(s[1..], plain);
      var rest := Escape(s[1..], plain);
      if plain(s[0]) && s[0] != '%' {
        assert ([s[0]] + rest)[1..] == rest;
      } else {
        UnescapeByte(s[0], rest);
      }
      assert s == [s[0]] + s[1..];
    }
  }

  lemma {:induction false} EscapedCharacters(s: string, plain: char -> bool)
    requires AllBytes(s) && forall c :: plain(c) ==> !IsSpace(c)
    ensures forall c :: c in Escape(s, plain) ==> !IsSpace(c)
    ensures '%' !in Escape(s, plain) ==> Escape(s, plain) == s
    ensures s != "" ==> Escape(s, plain) != ""
  {
    if s != "" {
      EscapedCharacters(s[1..], plain);
      HexIsNoSpace(s[0] as int / 16);
      HexIsNoSpace(s[0] as int % 16);
      assert s == [s[0]] + s[1..];
    }
  }

  lemma HexIsNoSpace(n: nat)
    requires n < 16
    ensures !IsSpace(UpperHex(n))
  {
  }

  /** Asking for the escaped form of a clean path gives the path, whichever characters are escaped. */
  lemma CleanUndoesEscape(v: string, plain: char -> bool)
    requires Paths.CleanRelative(v) && '\\' !in v && AllBytes(v)
    requires forall c :: plain(c) ==> !IsSpace(c)
    ensures Clean(Escape(v, plain)) == Cleaned(v, !HasExtension(v))
  {
    var escaped := Escape(v, plain);
    CanonicalEnds(v);
    EscapedCharacters(v, plain);
    UnescapeUndoesEscape(v, plain);
    TrimmedIsFixed(escaped);
    CleanIsSlowClean(escaped);
    SlowOnCanonical(v, v);
    assert Prepare(escaped) == v;
  }

  /** Without escapes a backslash is a slash. */
  lemma BackslashIsSlash(a: string, b: string)
    requires '%' !in a && '%' !in b
    ensures Prepare(a + ['\\'] + b) == Prepare(a + ['/'] + b)
  {
    var x, y := a + ['\\'] + b, a + ['/'] + b;
    assert forall i :: 0 <= i < |x| && i != |a| ==> x[i] == y[i];
    assert x[|a|] == '\\';
    assert ReplaceBackslashes(x) == ReplaceBackslashes(y);
    if '\\' !in y {
      assert ReplaceBackslashes(y) == y;
    }
  }

  // ---- When the entry may stand in -------------------------------------------------------------

  /** The last segment has a dot, other than one that starts the path. */
  lemma HasExtensionIff(value: string)
    ensures HasExtension(value) <==> exists d :: 0 < d < |value| && value[d] == '.' && forall i :: d <= i < |value| ==> value[i] != '/'
  {
  }

  /** The entry may stand in for the root, for a path that ends in a slash and for one without extension. */
  lemma FallbackIff(raw: string)
    ensures var c := Clean(raw);
            c.allowsEntryFallback <==> c.value == "" || HasSuffix(Prepare(TrimSpace(raw)), "/") || !HasExtension(c.value)
  {
    CleanIsSlowClean(raw);
    SlowCleanShape(Prepare(TrimSpace(raw)));
  }
}
