/** Which bundle paths are accepted, character by character (internal/spackbundle/path.go,
    pkg/path_policy.go). */
module BundlePathMeaning {
  import opened Basics
  import opened Paths
  import opened BundlePath

  // ---- Reserved names ------------------------------------------------------------------

  /** s is the upper-case name, letter case aside. */
  predicate SpelledAs(s: string, name: string) {
    && |s| == |name|
    && forall i :: 0 <= i < |s| ==> s[i] == name[i] || ('A' <= name[i] <= 'Z' && s[i] as int == name[i] as int + 32)
  }

  /** The devices of Windows: con, prn, aux, nul, conin$, conout$, and com1 to lpt9. */
  predicate IsDevice(s: string) {
    || SpelledAs(s, "CON") || SpelledAs(s, "PRN") || SpelledAs(s, "AUX") || SpelledAs(s, "NUL")
    || SpelledAs(s, "CONIN$") || SpelledAs(s, "CONOUT$")
    || (|s| == 4 && '1' <= s[3] <= '9' && (SpelledAs(s[..3], "COM") || SpelledAs(s[..3], "LPT")))
  }

  predicate HasLower(s: string) {
    exists i :: 0 <= i < |s| && 'a' <= s[i] <= 'z'
  }

  lemma UpperIsSpelled(s: string, name: string)
    requires !HasLower(name)
    ensures ToUpper(s) == name <==> SpelledAs(s, name)
  {
    if ToUpper(s) == name {
      forall i | 0 <= i < |s| ensures s[i] == name[i] || ('A' <= name[i] <= 'Z' && s[i] as int == name[i] as int + 32) {
        assert ToUpper(s)[i] == UpperChar(s[i]);
      }
    }
    if SpelledAs(s, name) {
      forall i | 0 <= i < |s| ensures ToUpper(s)[i] == name[i] {
        assert !('a' <= name[i] <= 'z');
      }
    }
  }

  /** The prefix and a digit from 1 to 9. */
  predicate IsPort(name: string, prefix: string) {
    exists d :: '1' <= d <= '9' && name == prefix + [d]
  }

  lemma SerialPorts(name: string)
    ensures name in SERIAL_PORTS <==> IsPort(name, "COM")
  {
    assert "COM" + ['1'] == "COM1" && "COM" + ['2'] == "COM2" && "COM" + ['3'] == "COM3";
    assert "COM" + ['4'] == "COM4" && "COM" + ['5'] == "COM5" && "COM" + ['6'] == "COM6";
    assert "COM" + ['7'] == "COM7" && "COM" + ['8'] == "COM8" && "COM" + ['9'] == "COM9";
    assert forall d :: '1' <= d <= '9' ==> d in "123456789";
  }

  lemma PrinterPorts(name: string)
    ensures name in PRINTER_PORTS <==> IsPort(name, "LPT")
  {
    assert "LPT" + ['1'] == "LPT1" && "LPT" + ['2'] == "LPT2" && "LPT" + ['3'] == "LPT3";
    assert "LPT" + ['4'] == "LPT4" && "LPT" + ['5'] == "LPT5" && "LPT" + ['6'] == "LPT6";
    assert "LPT" + ['7'] == "LPT7" && "LPT" + ['8'] == "LPT8" && "LPT" + ['9'] == "LPT9";
    assert forall d :: '1' <= d <= '9' ==> d in "123456789";
  }

  lemma PortIsSpelled(s: string, prefix: string)
    requires |prefix| == 3 && !HasLower(prefix)
    ensures IsPort(ToUpper(s), prefix) <==> |s| == 4 && '1' <= s[3] <= '9' && SpelledAs(s[..3], prefix)
  {
    if |s| == 4 {
      var upper := ToUpper(s);
      assert upper == upper[..3] + [upper[3]];
      assert upper[..3] == ToUpper(s[..3]);
      UpperIsSpelled(s[..3], prefix);
      if IsPort(upper, prefix) {
        var d :| '1' <= d <= '9' && upper == prefix + [d];
        assert upper[..3] == prefix && upper[3] == d;
      }
      if '1' <= s[3] <= '9' && SpelledAs(s[..3], prefix) {
        assert upper == prefix + [s[3]];
      }
    }
  }

  lemma ReservedIsDevice(s: string)
    ensures IsReservedName(ToUpper(s)) <==> IsDevice(s)
  {
    SerialPorts(ToUpper(s));
    PrinterPorts(ToUpper(s));
    PortIsSpelled(s, "COM");
    PortIsSpelled(s, "LPT");
    UpperIsSpelled(s, "CON");
    UpperIsSpelled(s, "PRN");
    UpperIsSpelled(s, "AUX");
    UpperIsSpelled(s, "NUL");
    UpperIsSpelled(s, "CONIN$");
    UpperIsSpelled(s, "CONOUT$");
  }

  // ---- Segments -------------------------------------------------------------------------

  /** The segment is a device, or a device and an extension. */
  predicate NamesDevice(segment: string) {
    IsDevice(segment) || exists n :: 0 <= n < |segment| && segment[n] == '.' && IsDevice(segment[..n])
  }

  /** A segment that every common file system takes as it is. */
  predicate PortableSegment(segment: string) {
    && segment != "" && ':' !in segment
    && segment[|segment| - 1] != '.' && segment[|segment| - 1] != ' '
    && !NamesDevice(segment)
  }

  lemma DevicesHaveNoDot(s: string)
    requires IsDevice(s)
    ensures '.' !in s
  {
    if |s| == 4 && '1' <= s[3] <= '9' && (SpelledAs(s[..3], "COM") || SpelledAs(s[..3], "LPT")) {
      assert s == s[..3] + [s[3]];
      assert '.' !in s[..3];
    }
  }

  lemma NamesDeviceIff(segment: string)
    ensures NamesDevice(segment) <==> IsDevice(Cut(segment, '.').before)
  {
    var n := IndexOf(segment, '.');
    if n == |segment| {
      assert '.' !in segment;
    } else {
      if IsDevice(segment) {
        DevicesHaveNoDot(segment);
      }
      forall m | 0 <= m < |segment| && segment[m] == '.' && IsDevice(segment[..m]) ensures m == n {
        DevicesHaveNoDot(segment[..m]);
        NoDotBefore(segment, m);
      }
    }
  }

  lemma NoDotBefore(segment: string, m: nat)
    requires m <= |segment| && '.' !in segment[..m]
    ensures forall i :: 0 <= i < m ==> segment[i] != '.'
  {
    forall i | 0 <= i < m ensures segment[i] != '.' {
      assert segment[..m][i] in segment[..m];
    }
  }

  lemma PortableIff(segment: string)
    ensures IsUnsafePortablePathSegment(segment) <==> !PortableSegment(segment)
  {
    if segment != "" && segment[|segment| - 1] != '.' && segment[|segment| - 1] != ' ' {
      LastCharacters(segment);
      NamesDeviceIff(segment);
      ReservedIsDevice(Cut(segment, '.').before);
    } else if segment != "" {
      LastCharacters(segment);
    }
  }

  lemma LastCharacters(segment: string)
    requires segment != ""
    ensures HasSuffix(segment, ".") <==> segment[|segment| - 1] == '.'
    ensures HasSuffix(segment, " ") <==> segment[|segment| - 1] == ' '
    ensures segment[|segment| - 1] != '.' && segment[|segment| - 1] != ' ' ==>
              TrimDotsAndSpaces(segment) == segment && segment != "." && segment != ".."
  {
    LastCharacterIsSuffix(segment, '.');
    LastCharacterIsSuffix(segment, ' ');
  }

  lemma LastCharacterIsSuffix(s: string, c: char)
    requires s != ""
    ensures HasSuffix(s, [c]) <==> s[|s| - 1] == c
  {
    var last := s[|s| - 1..];
    assert |last| == 1 && last[0] == s[|s| - 1];
    assert last == [last[0]];
  }

  // ---- Paths ----------------------------------------------------------------------------

  /** A relative path without backslashes and zero bytes whose clean form is made of portable
      segments and lies outside the metadata namespace. */
  predicate AcceptablePath(raw: string) {
    var path := TrimSpace(raw);
    && path != "" && path[0] != '/'
    && (forall i :: 0 <= i < |path| ==> path[i] != '\\' && path[i] != 0 as char)
    && (forall segment :: segment in Split(Clean(path), '/') ==> PortableSegment(segment))
    && Clean(path) != ".spack" && !(".spack/" <= Clean(path))
  }

  lemma SafeIffPortable(path: string)
    requires '\\' !in path
    ensures HasUnsafePortablePathSegment(path) <==> exists s :: s in Split(path, '/') && !PortableSegment(s)
  {
    SplitOfSlashed(path);
    forall s ensures IsUnsafePortablePathSegment(s) <==> !PortableSegment(s) {
      PortableIff(s);
    }
  }

  lemma EscapesAreNotPortable(path: string)
    requires path == "." || path == ".." || "../" <= path
    ensures exists s :: s in Split(path, '/') && !PortableSegment(s)
  {
    if path == "." || path == ".." {
      SplitWhole(path, '/');
      assert path in Split(path, '/');
    } else {
      assert path == ".." + ['/'] + path[3..];
      SplitCons("..", path[3..], '/');
      assert ".." in Split(path, '/') && !PortableSegment("..");
    }
  }

  /** cleanBundlePath accepts exactly the acceptable paths, and gives their clean form. */
  lemma CleanBundlePathIff(raw: string)
    ensures CleanBundlePath(raw).Ok? <==> AcceptablePath(raw)
    ensures CleanBundlePath(raw).Ok? ==> CleanBundlePath(raw).value == Clean(TrimSpace(raw))
  {
    var path := TrimSpace(raw);
    if ValidateRaw(path) == None {
      CleanAvoids(path, '\\');
      SafeIffPortable(Clean(path));
      if Clean(path) == "." || Clean(path) == ".." || "../" <= Clean(path) {
        EscapesAreNotPortable(Clean(path));
      }
    }
  }

  lemma PrefixCharacters(prefix: string, s: string)
    requires prefix <= s
    ensures forall c :: c in prefix ==> c in s
  {
  }

  lemma SingleSegment(name: string)
    requires name != "" && '/' !in name && name != "." && name != ".."
    ensures Clean(name) == name && Split(name, '/') == [name] && !(".spack/" <= name)
  {
    SplitWhole(name, '/');
    CleanKeepsCanonical(name);
    if ".spack/" <= name {
      PrefixCharacters(".spack/", name);
    }
  }

  /** A single portable name is accepted as it is. */
  lemma NamesAreAccepted(name: string)
    requires PortableSegment(name) && Trimmed(name) && name != ".spack"
    requires '/' !in name && '\\' !in name && (0 as char) !in name
    ensures AcceptablePath(name) && CleanBundlePath(name) == Ok(name)
  {
    TrimmedIsFixed(name);
    LastCharacters(name);
    SingleSegment(name);
    CleanBundlePathIff(name);
    assert name[0] in name;
  }

  /** Text without separators, colons, dots, white space and zero bytes. */
  predicate PlainText(s: string) {
    s != "" && forall i :: 0 <= i < |s| ==> !IsSpace(s[i]) && s[i] != '/' && s[i] != '\\' && s[i] != ':' && s[i] != '.' && s[i] != 0 as char
  }

  /** A plain name with a plain extension is accepted as it is, unless the name is a device. */
  lemma FileNamesAreAccepted(name: string, stem: string, extension: string)
    requires PlainText(stem) && PlainText(extension) && !IsDevice(stem) && name == stem + ['.'] + extension
    ensures CleanBundlePath(name) == Ok(name)
  {
    assert forall i :: 0 <= i < |name| ==> name[i] == if i < |stem| then stem[i] else if i == |stem| then '.' else extension[i - |stem| - 1];
    assert '.' !in stem;
    IndexOfFirst(stem, extension, '.');
    assert name[..|stem|] == stem;
    NamesDeviceIff(name);
    assert name[0] == stem[0] && name[|name| - 1] == extension[|extension| - 1];
    assert ':' !in name && '/' !in name && '\\' !in name && (0 as char) !in name;
    NotMetadata(name, stem);
    NamesAreAccepted(name);
  }

  lemma NotMetadata(name: string, stem: string)
    requires PlainText(stem) && stem <= name
    ensures name != ".spack"
  {
    assert name[0] == stem[0];
  }
}
