/**
 * The text side of `createDesktopEntries.js`: where the launchers go, what
 * each launcher file is called, which command it runs and the lines it holds
 * (the layout follows the "Recognized desktop entry keys" section of the
 * freedesktop.org Desktop Entry Specification). Creating the directory,
 * writing the files and the loop over `repos.json` are file I/O and are not
 * modelled.
 *
 * JavaScript strings are sequences of UTF-16 code units, while a Dafny
 * `char` is a Unicode scalar value; a character above U+FFFF is two code
 * units in the source, and the sanitiser treats each unit on its own.
 */
module DesktopEntries {
  import opened Wrappers
  import opened Json
  import opened Seqs

  // ---------------------------------------------------------------- file names

  /** A character of the class `[a-zA-Z0-9._-]`, which the sanitiser keeps. */
  predicate IsSafeChar(c: char)
  {
    ('a' <= c <= 'z') || ('A' <= c <= 'Z') || ('0' <= c <= '9') || c == '.' || c == '_' || c == '-'
  }

  /** The number of UTF-16 code units of one character. */
  function Units(c: char): (n: nat)
    ensures 1 <= n <= 2
  {
    if c as int > 0xFFFF then 2 else 1
  }

  /** The length JavaScript reports for a string: its UTF-16 code units. */
  function CodeUnits(s: string): nat
    decreases |s|
  {
    if s == [] then 0 else Units(s[0]) + CodeUnits(s[1..])
  }

  /** What `/[^a-zA-Z0-9._-]/g` replaces one character with: a `-` per code unit unless it is safe. */
  function Replacement(c: char): (r: string)
    ensures forall i :: 0 <= i < |r| ==> IsSafeChar(r[i])
    ensures |r| == (if IsSafeChar(c) then 1 else Units(c))
    ensures IsSafeChar(c) ==> r == [c]
    ensures !IsSafeChar(c) ==> forall i :: 0 <= i < |r| ==> r[i] == '-'
  {
    if IsSafeChar(c) then [c] else if Units(c) == 2 then "--" else "-"
  }

  /** `sanitizeFileName(name)`: every disallowed code unit becomes `-`. */
  function SanitizeFileName(s: string): (r: string)
    ensures forall i :: 0 <= i < |r| ==> IsSafeChar(r[i])
    decreases |s|
  {
    if s == [] then [] else Replacement(s[0]) + SanitizeFileName(s[1..])
  }

  lemma {:induction false} CodeUnitsAppend(a: string, b: string)
    ensures CodeUnits(a + b) == CodeUnits(a) + CodeUnits(b)
    decreases |a|
  {
    if a != [] {
      assert (a + b)[0] == a[0] && (a + b)[1..] == a[1..] + b;
      CodeUnitsAppend(a[1..], b);
    } else {
      assert a + b == b;
    }
  }

  /** Sanitising a concatenation sanitises each part: the replacement works character by character. */
  lemma {:induction false} SanitizeAppend(a: string, b: string)
    ensures SanitizeFileName(a + b) == SanitizeFileName(a) + SanitizeFileName(b)
    decreases |a|
  {
    if a != [] {
      assert (a + b)[0] == a[0] && (a + b)[1..] == a[1..] + b;
      SanitizeAppend(a[1..], b);
    } else {
      assert a + b == b;
    }
  }

  /** The sanitised name has as many code units as the name: each unit is kept or replaced by one `-`. */
  lemma {:induction false} SanitizeKeepsLength(s: string)
    ensures CodeUnits(SanitizeFileName(s)) == CodeUnits(s)
    decreases |s|
  {
    if s != [] {
      var head := Replacement(s[0]);
      CodeUnitsAppend(head, SanitizeFileName(s[1..]));
      SanitizeKeepsLength(s[1..]);
      if |head| == 2 {
        assert head[1..] == ['-'];
        assert CodeUnits(head) == 2;
      } else {
        assert head[1..] == [];
      }
    }
  }

  /**
   * On a string of characters that are one code unit each, the sanitiser
   * keeps every safe character in place and puts `-` in place of every other.
   */
  lemma {:induction false} SanitizeInPlace(s: string)
    requires forall i :: 0 <= i < |s| ==> Units(s[i]) == 1
    ensures |SanitizeFileName(s)| == |s|
    ensures forall i :: 0 <= i < |s| ==>
      SanitizeFileName(s)[i] == if IsSafeChar(s[i]) then s[i] else '-'
    decreases |s|
  {
    if s != [] {
      SanitizeInPlace(s[1..]);
      var r := SanitizeFileName(s);
      assert r == Replacement(s[0]) + SanitizeFileName(s[1..]);
      forall i | 1 <= i < |s| ensures r[i] == if IsSafeChar(s[i]) then s[i] else '-' {
        assert r[i] == SanitizeFileName(s[1..])[i - 1];
        assert s[1..][i - 1] == s[i];
      }
    }
  }

  /** A name changes under the sanitiser exactly when it holds a disallowed character. */
  lemma {:induction false} SanitizeUnchangedIffSafe(s: string)
    ensures SanitizeFileName(s) == s <==> forall i :: 0 <= i < |s| ==> IsSafeChar(s[i])
    decreases |s|
  {
    if s != [] {
      SanitizeUnchangedIffSafe(s[1..]);
      var rest := SanitizeFileName(s[1..]);
      SanitizeKeepsLength(s[1..]);
      if IsSafeChar(s[0]) {
        assert SanitizeFileName(s) == [s[0]] + rest;
        assert s == [s[0]] + s[1..];
        assert (forall i :: 0 <= i < |s| ==> IsSafeChar(s[i]))
          <==> (forall i :: 0 <= i < |s[1..]| ==> IsSafeChar(s[1..][i])) by {
          forall i | 1 <= i < |s| ensures s[i] == s[1..][i - 1] { }
        }
      } else {
        assert SanitizeFileName(s)[0] == Replacement(s[0])[0] != s[0];
      }
    }
  }

  /** Sanitising twice gives what sanitising once gives. */
  lemma SanitizeIdempotent(s: string)
    ensures SanitizeFileName(SanitizeFileName(s)) == SanitizeFileName(s)
  {
    SanitizeUnchangedIffSafe(SanitizeFileName(s));
  }

  /** `fieldops-${sanitizeFileName(name)}.desktop`. */
  function DesktopFileName(name: string): string
  {
    "fieldops-" + SanitizeFileName(name) + ".desktop"
  }

  /**
   * A launcher's file name is the sanitised name between a fixed prefix and
   * suffix, and every character of it is safe: no `/`, so the file always
   * lands directly in the applications directory.
   */
  lemma FileNameShape(name: string)
    ensures var f := DesktopFileName(name);
      && |f| == 9 + |SanitizeFileName(name)| + 8
      && f[..9] == "fieldops-"
      && f[9..|f| - 8] == SanitizeFileName(name)
      && f[|f| - 8..] == ".desktop"
      && forall i :: 0 <= i < |f| ==> IsSafeChar(f[i])
  {
    var f := DesktopFileName(name);
    var m := SanitizeFileName(name);
    assert f == "fieldops-" + m + ".desktop";
    forall i | 0 <= i < |f| ensures IsSafeChar(f[i]) {
      if i < 9 {
        assert f[i] == "fieldops-"[i];
      } else if i < 9 + |m| {
        assert f[i] == m[i - 9];
      } else {
        assert f[i] == ".desktop"[i - 9 - |m|];
      }
    }
  }

  /** Two different repository names can share a launcher file: `a b` and `a-b` both give `fieldops-a-b.desktop`. */
  lemma FileNamesCanCollide()
    ensures DesktopFileName("a b") == DesktopFileName("a-b") == "fieldops-a-b.desktop"
  {
    assert SanitizeFileName("a b") == "a-b" by {
      assert "a b"[1..] == " b" && " b"[1..] == "b" && "b"[1..] == [];
    }
    assert SanitizeFileName("a-b") == "a-b" by {
      assert "a-b"[1..] == "-b" && "-b"[1..] == "b" && "b"[1..] == [];
    }
  }

  // ------------------------------------------------------------ directories

  /**
   * `path.join(a, b)` for two segments: one `/` between them. The further
   * normalisation `path.join` does (repeated `/`, `.` and `..` segments) is
   * not modelled.
   */
  function JoinPath(a: string, b: string): string
  {
    if a == "" then b
    else if a[|a| - 1] == '/' then a + b
    else a + "/" + b
  }

  /** A joined path ends with its last segment, after a `/` unless the first segment is empty. */
  lemma JoinPathEnds(a: string, b: string)
    ensures var r := JoinPath(a, b);
      if a == "" then r == b else |r| > |b| && r[|r| - |b|..] == b && r[|r| - |b| - 1] == '/'
  {
    var r := JoinPath(a, b);
    if a != "" {
      if a[|a| - 1] == '/' {
        assert r == a[..|a| - 1] + ['/'] + b by { assert a == a[..|a| - 1] + ['/']; }
      } else {
        assert r == a + ['/'] + b;
      }
    }
  }

  /**
   * `getApplicationsDir()`: `$XDG_DATA_HOME/applications` when the variable
   * is set and not empty (`||` treats "" as unset), `~/.local/share/applications`
   * otherwise. `xdgDataHome` is the variable's value, `None` when it is unset.
   */
  function ApplicationsDir(xdgDataHome: Option<string>, home: string): string
  {
    var dataHome :=
      if xdgDataHome.Some? && xdgDataHome.value != "" then xdgDataHome.value
      else JoinPath(JoinPath(home, ".local"), "share");
    JoinPath(dataHome, "applications")
  }

  /** A set, non-empty `XDG_DATA_HOME` decides the directory, whatever the home directory is. */
  lemma ApplicationsDirFromXdg(x: string, home: string)
    requires x != "" && x[|x| - 1] != '/'
    ensures ApplicationsDir(Some(x), home) == x + "/applications"
  {
  }

  /** An unset or empty `XDG_DATA_HOME` falls back to the home directory. */
  lemma ApplicationsDirFromHome(xdgDataHome: Option<string>, home: string)
    requires xdgDataHome.None? || xdgDataHome.value == ""
    requires home != "" && home[|home| - 1] != '/'
    ensures ApplicationsDir(xdgDataHome, home) == home + "/" + ".local" + "/" + "share" + "/" + "applications"
  {
    var local := JoinPath(home, ".local");
    assert local == home + "/" + ".local";
    assert local[|local| - 1] == 'l';
    var share := JoinPath(local, "share");
    assert share == local + "/" + "share";
    assert share[|share| - 1] == 'e';
  }

  /** A trailing `/` on `XDG_DATA_HOME` is not doubled. */
  lemma ApplicationsDirTrailingSlash(x: string, home: string)
    requires x != "" && x[|x| - 1] == '/'
    ensures ApplicationsDir(Some(x), home) == x + "applications"
  {
  }

  // --------------------------------------------------------------- commands

  function StartsWith(s: string, prefix: string): bool
  {
    |prefix| <= |s| && s[..|prefix|] == prefix
  }

  /**
   * `repo.remote && /^https?:\/\//.test(repo.remote)`: the remote is truthy
   * and its text starts with `http://` or `https://`, in lower case.
   */
  predicate IsWebRemote(remote: Option<Json>)
  {
    Truthy(remote) && (StartsWith(Text(remote.value), "http://") || StartsWith(Text(remote.value), "https://"))
  }

  /** What `${v}` inserts for a property read: "undefined" when the property is missing. */
  function Shown(v: Option<Json>): string
  {
    if v.None? then "undefined" else Text(v.value)
  }

  /** The command the launcher runs: open the remote in a browser when it is a web URL, the checkout otherwise. */
  function ExecCommand(remote: Option<Json>, path: Option<Json>): (r: string)
    ensures |r| >= 9 && r[..9] == "xdg-open "
  {
    "xdg-open " + (if IsWebRemote(remote) then Text(remote.value) else Shown(path))
  }

  /** A string remote is opened exactly when it starts with `http://` or `https://`; otherwise the path is. */
  lemma ExecCommandChoice(remote: string, path: Option<Json>)
    ensures IsWebRemote(Some(JStr(remote))) <==>
      (|remote| >= 7 && remote[..7] == "http://") || (|remote| >= 8 && remote[..8] == "https://")
    ensures ExecCommand(Some(JStr(remote)), path) ==
      "xdg-open " + (if IsWebRemote(Some(JStr(remote))) then remote else Shown(path))
  {
  }

  /** The scheme test is case-sensitive: an upper-case `HTTPS://` remote opens the path instead. */
  lemma UpperCaseSchemeIsNotWeb(path: string)
    ensures ExecCommand(Some(JStr("HTTPS://example.org")), Some(JStr(path))) == "xdg-open " + path
  {
    assert "HTTPS://example.org"[..8] != "https://" by {
      assert "HTTPS://example.org"[0] == 'H';
    }
    assert "HTTPS://example.org"[..7] != "http://" by {
      assert "HTTPS://example.org"[0] == 'H';
    }
  }

  /** A repository without a remote (`remote: null`) opens its checkout. */
  lemma NullRemoteOpensPath(path: string)
    ensures ExecCommand(Some(JNull), Some(JStr(path))) == "xdg-open " + path
  {
  }

  // ------------------------------------------------------------ entry text

  /** `parts.join(sep)`. */
  function Join<T>(parts: seq<seq<T>>, sep: T): seq<T>
    decreases |parts|
  {
    if |parts| == 0 then []
    else if |parts| == 1 then parts[0]
    else parts[0] + [sep] + Join(parts[1..], sep)
  }

  /** `s.split(sep)`: the pieces between separators, one more piece than there are separators. */
  function Split<T(==,!new)>(s: seq<T>, sep: T): (r: seq<seq<T>>)
    ensures |r| >= 1
    decreases |s|
  {
    if sep !in s then [s]
    else
      var k := IndexOf(s, sep);
      [s[..k]] + Split(s[k + 1..], sep)
  }

  /** A piece free of the separator, then the separator, splits off as the first piece. */
  lemma SplitFirst<T(!new)>(p: seq<T>, rest: seq<T>, sep: T)
    requires sep !in p
    ensures Split(p + [sep] + rest, sep) == [p] + Split(rest, sep)
  {
    var s := p + [sep] + rest;
    assert s[|p|] == sep;
    forall j | 0 <= j < |p| ensures s[j] != sep {
      assert s[j] == p[j];
    }
    IndexOfIs(s, sep, |p|);
    assert s[..|p|] == p;
    assert s[|p| + 1..] == rest;
  }

  /** Splitting a joined list at the separator gives the list back when no part holds the separator. */
  lemma {:induction false} SplitJoin<T(!new)>(parts: seq<seq<T>>, sep: T)
    requires |parts| >= 1
    requires forall i :: 0 <= i < |parts| ==> sep !in parts[i]
    ensures Split(Join(parts, sep), sep) == parts
    decreases |parts|
  {
    if |parts| > 1 {
      var p := parts[0];
      var tail := parts[1..];
      var rest := Join(tail, sep);
      assert Join(parts, sep) == p + [sep] + rest;
      SplitFirst(p, rest, sep);
      assert forall i :: 0 <= i < |tail| ==> sep !in tail[i] by {
        forall i | 0 <= i < |tail| ensures sep !in tail[i] {
          assert tail[i] == parts[i + 1];
        }
      }
      SplitJoin(tail, sep);
      assert parts == [p] + tail;
    }
  }

  /** A joined list ends with its last part, so no separator follows it. */
  lemma {:induction false} JoinEndsWithLast<T>(parts: seq<seq<T>>, sep: T)
    requires |parts| >= 1
    ensures var j := Join(parts, sep); var last := parts[|parts| - 1];
      |j| >= |last| && j[|j| - |last|..] == last
    decreases |parts|
  {
    if |parts| > 1 {
      JoinEndsWithLast(parts[1..], sep);
    }
  }

  /** The eight lines of the launcher, in order. */
  function EntryLines(name: string, cmd: string): (r: seq<string>)
    ensures |r| == 8
  {
    [ "[Desktop Entry]",
      "Type=Application",
      "Name=FieldOps: " + name,
      "Comment=Open " + name + " repository",
      "Exec=" + cmd,
      "Terminal=false",
      "Categories=Development;Utility;",
      "StartupNotify=false" ]
  }

  /** The launcher text: the eight lines joined with `\n`. */
  function EntryText(name: string, cmd: string): string
  {
    Join(EntryLines(name, cmd), '\n')
  }

  /** No fixed line of the entry holds a line break. */
  lemma HeaderUnbroken()
    ensures '\n' !in "[Desktop Entry]" && '\n' !in "Type=Application"
  {
  }

  lemma FooterUnbroken()
    ensures '\n' !in "Terminal=false" && '\n' !in "StartupNotify=false"
  {
  }

  lemma CategoriesUnbroken()
    ensures '\n' !in "Categories=Development;Utility;"
  {
  }

  lemma KeysUnbroken()
    ensures '\n' !in "Name=FieldOps: " && '\n' !in "Comment=Open " && '\n' !in " repository" && '\n' !in "Exec="
  {
  }

  /**
   * When neither the name nor the command holds a line break, the text reads
   * back as exactly the eight lines, and it ends with `StartupNotify=false`,
   * with no newline after it.
   */
  lemma EntryTextLines(name: string, cmd: string)
    requires '\n' !in name && '\n' !in cmd
    ensures Split(EntryText(name, cmd), '\n') == EntryLines(name, cmd)
    ensures var t := EntryText(name, cmd); |t| >= 19 && t[|t| - 19..] == "StartupNotify=false"
    ensures var t := EntryText(name, cmd); t[|t| - 1] != '\n'
  {
    var ls := EntryLines(name, cmd);
    assert '\n' !in ls[0] && '\n' !in ls[1] && '\n' !in ls[5] && '\n' !in ls[6] && '\n' !in ls[7] by {
      HeaderUnbroken();
      FooterUnbroken();
      CategoriesUnbroken();
    }
    assert '\n' !in ls[2] by {
      assert ls[2] == "Name=FieldOps: " + name;
      KeysUnbroken();
    }
    assert '\n' !in ls[3] by {
      assert ls[3] == "Comment=Open " + name + " repository";
      KeysUnbroken();
    }
    assert '\n' !in ls[4] by {
      assert ls[4] == "Exec=" + cmd;
      KeysUnbroken();
    }
    assert forall i :: 0 <= i < |ls| ==> '\n' !in ls[i] by {
      forall i | 0 <= i < |ls| ensures '\n' !in ls[i] {
        assert i in {0, 1, 2, 3, 4, 5, 6, 7};
      }
    }
    SplitJoin(ls, '\n');
    JoinEndsWithLast(ls, '\n');
    var t := EntryText(name, cmd);
    assert t[|t| - 1] == t[|t| - 19..][18];
  }

  /** The path and the text `createDesktopEntryForRepo` writes. */
  datatype DesktopEntry = DesktopEntry(targetPath: string, text: string)

  /**
   * `createDesktopEntryForRepo(repo)` without the file system: `None` when it
   * throws, which is when `repo` is `null` or its `name` is not a string
   * (`sanitizeFileName` calls `name.replace`).
   */
  function EntryFor(repo: Json, applicationsDir: string): (r: Option<DesktopEntry>)
    ensures r.Some? <==> !repo.JNull? && Prop(repo, "name").Some? && Prop(repo, "name").value.JStr?
  {
    if repo.JNull? then None
    else
      var name := Prop(repo, "name");
      if name.None? || !name.value.JStr? then None
      else
        var cmd := ExecCommand(Prop(repo, "remote"), Prop(repo, "path"));
        Some(DesktopEntry(JoinPath(applicationsDir, DesktopFileName(name.value.s)), EntryText(name.value.s, cmd)))
  }

  /**
   * For a repository record `{name, path, remote}` as `scanRepos.js` writes
   * it (`remote` is `null` when the checkout has none), the launcher lies in
   * the applications directory under its own file name, and its lines name
   * the repository and the command.
   */
  lemma EntryForRecord(name: string, path: string, remote: Option<string>, dir: string)
    requires '\n' !in name && '\n' !in path
    requires remote.Some? ==> '\n' !in remote.value
    ensures var r := if remote.Some? then JStr(remote.value) else JNull;
      var e := EntryFor(JObj(map["name" := JStr(name), "path" := JStr(path), "remote" := r]), dir);
      var shown := if IsWebRemote(Some(r)) then remote.value else path;
      && e.Some?
      && e.value.targetPath == JoinPath(dir, DesktopFileName(name))
      && Split(e.value.text, '\n') == EntryLines(name, "xdg-open " + shown)
  {
    var r := if remote.Some? then JStr(remote.value) else JNull;
    var repo := JObj(map["name" := JStr(name), "path" := JStr(path), "remote" := r]);
    assert Prop(repo, "name") == Some(JStr(name));
    assert Prop(repo, "path") == Some(JStr(path));
    assert Prop(repo, "remote") == Some(r);
    var shown := if IsWebRemote(Some(r)) then remote.value else path;
    var cmd := "xdg-open " + shown;
    assert ExecCommand(Some(r), Some(JStr(path))) == cmd;
    assert '\n' !in cmd by {
      forall i | 0 <= i < |cmd| ensures cmd[i] != '\n' {
        if i >= 9 {
          assert cmd[i] == shown[i - 9];
        }
      }
    }
    EntryTextLines(name, cmd);
  }
}
