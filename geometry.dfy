/**
 * Rendering the last geometry of a parsed Gaussian output (`geom_from_dict`,
 * also written out inline in `handle_misc_failure`): one line per atom, the
 * atom's entry of `atomnos`, two spaces, then its three coordinates of the last
 * frame of `atomcoords`, four spaces apart, the lines joined by newlines with
 * none after the last.
 *
 * Python's `str()` of a value and the float conversion `:.6f` are parameters:
 * `show` and `fmt`.
 */
module Geometry {
  import opened Values

  const AtomNos := "atomnos"
  const AtomCoords := "atomcoords"

  predicate NoNewline(s: string) {
    '\n' !in s
  }

  /** `coords[-1]`: the last frame of the coordinate history. */
  function LastFrame(coords: Value): Result<Value> {
    Index(coords, -1)
  }

  /**
   * The atoms `for x in range(len(symbols))` visits, each as `symbols[x]`
   * gives it: the items of a list, the characters of a string, none for an
   * empty dictionary. A non-empty dictionary has a length but raises at
   * `symbols[0]`, and any other value has no length.
   */
  function Symbols(v: Value): (r: Result<seq<Value>>)
    ensures v.List? ==> r == Ok(v.items)
    ensures v.Text? ==> r.Ok? && |r.value| == |v.s| && forall i :: 0 <= i < |v.s| ==> r.value[i] == Text([v.s[i]])
    ensures v.Dict? ==> (r.Ok? <==> v.entries == []) && (r.Ok? ==> r.value == [])
    ensures !v.List? && !v.Text? && !v.Dict? ==> r == Err(TypeError)
    ensures r.Err? ==> r.error == TypeError
  {
    match v
    case List(items) => Ok(items)
    case Text(s) => Ok(seq(|s|, i requires 0 <= i < |s| => Text([s[i]])))
    case Dict(entries) => if entries == [] then Ok([]) else Err(TypeError)
    case _ => Err(TypeError)
  }

  /** `f"{row[k]:.6f}"` */
  function Coordinate(row: Value, k: nat, fmt: real -> string): Result<string> {
    var c :- Index(row, k);
    match AsFloat(c)
    case Some(x) => Ok(fmt(x))
    case None => Err(TypeError)
  }

  /** `f"{symbols[i]}  {geom[i][0]:.6f}    {geom[i][1]:.6f}    {geom[i][2]:.6f}"` */
  function AtomLine(symbols: seq<Value>, frame: Value, i: nat, show: Value -> string, fmt: real -> string)
    : Result<string>
    requires i < |symbols|
  {
    var row :- Index(frame, i);
    RowLine(symbols[i], row, show, fmt)
  }

  /** The line of an atom whose row of coordinates is `row`. */
  function RowLine(symbol: Value, row: Value, show: Value -> string, fmt: real -> string): Result<string> {
    var x :- Coordinate(row, 0, fmt);
    var y :- Coordinate(row, 1, fmt);
    var z :- Coordinate(row, 2, fmt);
    Ok(show(symbol) + "  " + x + "    " + y + "    " + z)
  }

  /** Each atom's line, or the error rendering it raises. */
  function AtomLines(symbols: seq<Value>, frame: Value, show: Value -> string, fmt: real -> string)
    : (rs: seq<Result<string>>)
    ensures |rs| == |symbols|
    ensures forall i :: 0 <= i < |symbols| ==> rs[i] == AtomLine(symbols, frame, i, show, fmt)
  {
    seq(|symbols|, i requires 0 <= i < |symbols| => AtomLine(symbols, frame, i, show, fmt))
  }

  /** The first `n` lines, or the error of the first of them that raises. */
  function FirstLines(rs: seq<Result<string>>, n: nat): Result<seq<string>>
    requires n <= |rs|
  {
    if n == 0 then Ok([])
    else
      var init :- FirstLines(rs, n - 1);
      var last :- rs[n - 1];
      Ok(init + [last])
  }

  /** The lines of the first `n` atoms, or the error the first bad atom raises. */
  function Lines(symbols: seq<Value>, frame: Value, n: nat, show: Value -> string, fmt: real -> string)
    : Result<seq<string>>
    requires n <= |symbols|
  {
    if n == 0 then Ok([])
    else
      var init :- Lines(symbols, frame, n - 1, show, fmt);
      var last :- AtomLine(symbols, frame, n - 1, show, fmt);
      Ok(init + [last])
  }

  /** The lines of the first `n` atoms are the first `n` of the atoms' lines. */
  lemma {:induction false} LinesAreFirstLines(
    symbols: seq<Value>, frame: Value, n: nat, show: Value -> string, fmt: real -> string)
    requires n <= |symbols|
    ensures Lines(symbols, frame, n, show, fmt) == FirstLines(AtomLines(symbols, frame, show, fmt), n)
  {
    if n > 0 {
      LinesAreFirstLines(symbols, frame, n - 1, show, fmt);
    }
  }

  /** `"\n".join(lines)` */
  function Join(lines: seq<string>): string {
    if |lines| == 0 then ""
    else if |lines| == 1 then lines[0]
    else lines[0] + "\n" + Join(lines[1..])
  }

  /** `s.split("\n")` */
  function Split(s: string): seq<string>
    decreases |s|
  {
    if NoNewline(s) then [s]
    else
      var i := FirstNewline(s);
      [s[..i]] + Split(s[i + 1..])
  }

  function FirstNewline(s: string): (i: nat)
    requires !NoNewline(s)
    ensures i < |s| && s[i] == '\n' && NoNewline(s[..i])
  {
    if s[0] == '\n' then 0
    else
      assert !NoNewline(s[1..]) by { assert s == [s[0]] + s[1..]; }
      var j := FirstNewline(s[1..]);
      assert s[..j + 1] == [s[0]] + s[1..][..j];
      j + 1
  }

  /** geom_from_dict: the rendered last geometry of a parsed output dictionary. */
  function GeomFromDict(d: Entries, show: Value -> string, fmt: real -> string): (r: Result<string>)
    ensures Lookup(d, AtomNos).None? ==> r == Err(KeyError(AtomNos))
    ensures Lookup(d, AtomNos).Some? && Lookup(d, AtomCoords).None? ==> r == Err(KeyError(AtomCoords))
  {
    var symbols :- Get(d, AtomNos);
    var coords :- Get(d, AtomCoords);
    var frame :- LastFrame(coords);
    var atoms :- Symbols(symbols);
    var lines :- Lines(atoms, frame, |atoms|, show, fmt);
    Ok(Join(lines))
  }

  /** The text the loop has built after some lines: each line followed by a newline. */
  ghost function Terminated(lines: seq<string>): string {
    if lines == [] then "" else lines[0] + "\n" + Terminated(lines[1..])
  }

  lemma {:induction false} TerminatedSnoc(lines: seq<string>, line: string)
    ensures Terminated(lines + [line]) == Terminated(lines) + line + "\n"
  {
    if lines != [] {
      assert (lines + [line])[1..] == lines[1..] + [line];
      TerminatedSnoc(lines[1..], line);
    }
  }

  lemma {:induction false} JoinSnoc(lines: seq<string>, line: string)
    ensures Join(lines + [line]) == Terminated(lines) + line
  {
    if lines != [] {
      assert (lines + [line])[1..] == lines[1..] + [line];
      JoinSnoc(lines[1..], line);
    }
  }

  lemma {:induction false} FirstLinesErrorPersists(rs: seq<Result<string>>, n: nat, m: nat)
    requires n <= m <= |rs|
    requires FirstLines(rs, n).Err?
    ensures FirstLines(rs, m) == FirstLines(rs, n)
    decreases m
  {
    if m > n {
      FirstLinesErrorPersists(rs, n, m - 1);
    }
  }

  /** Once an atom fails, every longer prefix fails with the same error. */
  lemma LinesErrorPersists(
    symbols: seq<Value>, frame: Value, n: nat, m: nat, show: Value -> string, fmt: real -> string)
    requires n <= m <= |symbols|
    requires Lines(symbols, frame, n, show, fmt).Err?
    ensures Lines(symbols, frame, m, show, fmt) == Lines(symbols, frame, n, show, fmt)
  {
    LinesAreFirstLines(symbols, frame, n, show, fmt);
    LinesAreFirstLines(symbols, frame, m, show, fmt);
    FirstLinesErrorPersists(AtomLines(symbols, frame, show, fmt), n, m);
  }

  /**
   * The loop of geom_from_dict: appends each atom's line, with a newline after
   * every line but the last.
   */
  method RenderGeometry(d: Entries, show: Value -> string, fmt: real -> string) returns (r: Result<string>)
    ensures r == GeomFromDict(d, show, fmt)
  {
    var symbols := Get(d, AtomNos);
    if symbols.Err? { return Err(symbols.error); }
    var coords := Get(d, AtomCoords);
    if coords.Err? { return Err(coords.error); }
    var frame := LastFrame(coords.value);
    if frame.Err? { return Err(frame.error); }
    var listed := Symbols(symbols.value);
    if listed.Err? { return Err(listed.error); }
    var atoms := listed.value;
    var n := |atoms|;
    var structure := "";
    for x := 0 to n
      invariant Lines(atoms, frame.value, x, show, fmt).Ok?
      invariant structure == if x == n then Join(Lines(atoms, frame.value, x, show, fmt).value)
                             else Terminated(Lines(atoms, frame.value, x, show, fmt).value)
    {
      ghost var done := Lines(atoms, frame.value, x, show, fmt).value;
      var line := AtomLine(atoms, frame.value, x, show, fmt);
      if line.Err? {
        LinesErrorPersists(atoms, frame.value, x + 1, n, show, fmt);
        return Err(line.error);
      }
      if x != n - 1 {
        TerminatedSnoc(done, line.value);
        structure := structure + line.value + "\n";
      } else {
        JoinSnoc(done, line.value);
        structure := structure + line.value;
      }
    }
    return Ok(structure);
  }

  /** Whether atom `i` has a row of at least three numbers in the frame. */
  predicate RowReadable(frame: Value, i: nat) {
    && frame.List? && i < |frame.items|
    && frame.items[i].List? && |frame.items[i].items| >= 3
    && AsFloat(frame.items[i].items[0]).Some?
    && AsFloat(frame.items[i].items[1]).Some?
    && AsFloat(frame.items[i].items[2]).Some?
  }

  predicate AllRowsReadable(frame: Value, n: nat) {
    forall i :: 0 <= i < n ==> RowReadable(frame, i)
  }

  /** The line of one atom in terms of its coordinates. */
  function FormatAtom(symbol: Value, row: seq<Value>, show: Value -> string, fmt: real -> string): string
    requires |row| >= 3 && AsFloat(row[0]).Some? && AsFloat(row[1]).Some? && AsFloat(row[2]).Some?
  {
    show(symbol) + "  " + fmt(AsFloat(row[0]).value) + "    " + fmt(AsFloat(row[1]).value)
      + "    " + fmt(AsFloat(row[2]).value)
  }

  /** An atom's line exists exactly when its row is readable, and is its formatted coordinates. */
  lemma AtomLineDefined(symbols: seq<Value>, frame: Value, i: nat, show: Value -> string, fmt: real -> string)
    requires i < |symbols|
    ensures AtomLine(symbols, frame, i, show, fmt).Ok? <==> RowReadable(frame, i)
    ensures RowReadable(frame, i) ==>
              AtomLine(symbols, frame, i, show, fmt).value == FormatAtom(symbols[i], frame.items[i].items, show, fmt)
  {
  }

  /** The first `n` lines exist exactly when every one of them does, and there are `n` of them. */
  lemma LinesDefined(
    symbols: seq<Value>, frame: Value, n: nat, show: Value -> string, fmt: real -> string)
    requires n <= |symbols|
    ensures Lines(symbols, frame, n, show, fmt).Ok? <==>
              forall i :: 0 <= i < n ==> AtomLine(symbols, frame, i, show, fmt).Ok?
    ensures Lines(symbols, frame, n, show, fmt).Ok? ==>
              && |Lines(symbols, frame, n, show, fmt).value| == n
              && forall i :: 0 <= i < n ==>
                   Lines(symbols, frame, n, show, fmt).value[i] == AtomLine(symbols, frame, i, show, fmt).value
  {
    var rs := AtomLines(symbols, frame, show, fmt);
    LinesAreFirstLines(symbols, frame, n, show, fmt);
    FirstLinesOk(rs, n);
    if FirstLines(rs, n).Ok? {
      FirstLinesContents(rs, n);
    }
  }

  lemma {:induction false} FirstLinesOk(rs: seq<Result<string>>, n: nat)
    requires n <= |rs|
    ensures FirstLines(rs, n).Ok? <==> forall i :: 0 <= i < n ==> rs[i].Ok?
  {
    if n > 0 {
      FirstLinesOk(rs, n - 1);
    }
  }

  lemma {:induction false} FirstLinesContents(rs: seq<Result<string>>, n: nat)
    requires n <= |rs|
    requires FirstLines(rs, n).Ok?
    ensures |FirstLines(rs, n).value| == n
    ensures forall i :: 0 <= i < n ==> rs[i].Ok? && FirstLines(rs, n).value[i] == rs[i].value
  {
    if n > 0 {
      FirstLinesContents(rs, n - 1);
    }
  }

  /** Splitting at newlines undoes joining lines that hold none. */
  lemma {:induction false} SplitJoin(lines: seq<string>)
    requires |lines| > 0
    requires forall i :: 0 <= i < |lines| ==> NoNewline(lines[i])
    ensures Split(Join(lines)) == lines
  {
    if |lines| > 1 {
      var a, rest := lines[0], Join(lines[1..]);
      var s := a + "\n" + rest;
      assert s[|a|] == '\n';
      assert s[..|a|] == a;
      FirstNewlineAt(s, |a|);
      assert s[|a| + 1..] == rest;
      SplitJoin(lines[1..]);
      assert lines == [a] + lines[1..];
    }
  }

  /** The first newline is the one with no newline before it. */
  lemma FirstNewlineAt(s: string, k: nat)
    requires k < |s| && s[k] == '\n' && NoNewline(s[..k])
    ensures !NoNewline(s) && FirstNewline(s) == k
  {
    assert s[k] in s;
    var i := FirstNewline(s);
    assert forall j :: 0 <= j < k ==> s[..k][j] == s[j];
    assert forall j :: 0 <= j < i ==> s[..i][j] == s[j];
  }

  /** A join of lines that hold no newline and whose last is not empty does not end in a newline. */
  lemma {:induction false} JoinEndsWithLastLine(lines: seq<string>)
    requires |lines| > 0 && |lines[|lines| - 1]| > 0 && NoNewline(lines[|lines| - 1])
    ensures |Join(lines)| > 0 && Join(lines)[|Join(lines)| - 1] == lines[|lines| - 1][|lines[|lines| - 1]| - 1]
    ensures Join(lines)[|Join(lines)| - 1] != '\n'
  {
    if |lines| > 1 {
      JoinEndsWithLastLine(lines[1..]);
    }
  }

  /** `str()` of every atom the loop visits is free of newlines. */
  predicate AtomsPrintable(atoms: seq<Value>, show: Value -> string) {
    forall i :: 0 <= i < |atoms| ==> NoNewline(show(atoms[i]))
  }

  /** A rendered line holds no newline when neither `show` nor `fmt` produce one. */
  lemma FormatAtomNoNewline(symbol: Value, row: seq<Value>, show: Value -> string, fmt: real -> string)
    requires |row| >= 3 && AsFloat(row[0]).Some? && AsFloat(row[1]).Some? && AsFloat(row[2]).Some?
    requires NoNewline(show(symbol))
    requires forall x :: NoNewline(fmt(x))
    ensures NoNewline(FormatAtom(symbol, row, show, fmt)) && |FormatAtom(symbol, row, show, fmt)| > 0
  {
    var s := FormatAtom(symbol, row, show, fmt);
    var sh, fx, fy, fz := show(symbol), fmt(AsFloat(row[0]).value), fmt(AsFloat(row[1]).value), fmt(AsFloat(row[2]).value);
    assert s == sh + "  " + fx + "    " + fy + "    " + fz;
    forall j | 0 <= j < |s| ensures s[j] != '\n' {
      if j < |sh| { assert s[j] == sh[j]; }
      else if j < |sh| + 2 { assert s[j] == ' '; }
      else if j < |sh| + 2 + |fx| { assert s[j] == fx[j - |sh| - 2]; }
      else if j < |sh| + 6 + |fx| { assert s[j] == ' '; }
      else if j < |sh| + 6 + |fx| + |fy| { assert s[j] == fy[j - |sh| - 6 - |fx|]; }
      else if j < |sh| + 10 + |fx| + |fy| { assert s[j] == ' '; }
      else { assert s[j] == fz[j - |sh| - 10 - |fx| - |fy|]; }
    }
  }

  /** geom_from_dict succeeds exactly on a dictionary with the fields it reads, well shaped. */
  lemma GeomFromDictDefined(d: Entries, show: Value -> string, fmt: real -> string)
    ensures GeomFromDict(d, show, fmt).Ok? <==>
              && Lookup(d, AtomNos).Some? && Lookup(d, AtomCoords).Some?
              && LastFrame(Lookup(d, AtomCoords).value).Ok?
              && Symbols(Lookup(d, AtomNos).value).Ok?
              && AllRowsReadable(LastFrame(Lookup(d, AtomCoords).value).value,
                                 |Symbols(Lookup(d, AtomNos).value).value|)
  {
    if Lookup(d, AtomNos).Some? && Lookup(d, AtomCoords).Some? && LastFrame(Get(d, AtomCoords).value).Ok?
       && Symbols(Lookup(d, AtomNos).value).Ok? {
      var atoms := Symbols(Lookup(d, AtomNos).value).value;
      var frame := LastFrame(Get(d, AtomCoords).value).value;
      LinesDefined(atoms, frame, |atoms|, show, fmt);
      forall i | 0 <= i < |atoms| ensures AtomLine(atoms, frame, i, show, fmt).Ok? <==> RowReadable(frame, i) {
        AtomLineDefined(atoms, frame, i, show, fmt);
      }
    }
  }

  /**
   * With no atoms the loop never runs: an empty list, string or dictionary
   * of atoms renders as the empty string whenever `atomcoords[-1]` exists,
   * whether `atomcoords` is a list or a string.
   */
  lemma GeomFromDictNoAtoms(d: Entries, show: Value -> string, fmt: real -> string)
    requires Lookup(d, AtomNos) == Some(List([])) || Lookup(d, AtomNos) == Some(Text([]))
             || Lookup(d, AtomNos) == Some(Dict([]))
    requires Lookup(d, AtomCoords).Some?
    requires var c := Lookup(d, AtomCoords).value; (c.List? && c.items != []) || (c.Text? && c.s != [])
    ensures GeomFromDict(d, show, fmt) == Ok("")
  {
    assert Symbols(Lookup(d, AtomNos).value) == Ok([]);
  }

  /**
   * Joining the lines of all atoms gives one line per atom, line i being that
   * atom's symbol and coordinates, and no newline after the last line.
   */
  lemma JoinedLines(atoms: seq<Value>, frame: Value, show: Value -> string, fmt: real -> string)
    requires Lines(atoms, frame, |atoms|, show, fmt).Ok?
    requires AtomsPrintable(atoms, show)
    requires forall x :: NoNewline(fmt(x))
    ensures
      var text := Join(Lines(atoms, frame, |atoms|, show, fmt).value);
      && (|atoms| == 0 ==> text == "")
      && (|atoms| > 0 ==>
            && Split(text) == Lines(atoms, frame, |atoms|, show, fmt).value
            && |text| > 0 && text[|text| - 1] != '\n')
  {
    var lines := Lines(atoms, frame, |atoms|, show, fmt).value;
    LinesDefined(atoms, frame, |atoms|, show, fmt);
    forall i | 0 <= i < |atoms| ensures NoNewline(lines[i]) && |lines[i]| > 0 {
      AtomLineDefined(atoms, frame, i, show, fmt);
      FormatAtomNoNewline(atoms[i], frame.items[i].items, show, fmt);
    }
    if |atoms| > 0 {
      SplitJoin(lines);
      JoinEndsWithLastLine(lines);
    }
  }

  /** What a successful geom_from_dict has read: the atoms, a last frame, and a line per atom. */
  lemma GeomFromDictUnfold(d: Entries, show: Value -> string, fmt: real -> string)
    requires GeomFromDict(d, show, fmt).Ok?
    ensures Lookup(d, AtomNos).Some? && Symbols(Lookup(d, AtomNos).value).Ok?
    ensures Lookup(d, AtomCoords).Some? && LastFrame(Lookup(d, AtomCoords).value).Ok?
    ensures
      var atoms := Symbols(Lookup(d, AtomNos).value).value;
      var frame := LastFrame(Lookup(d, AtomCoords).value).value;
      && Lines(atoms, frame, |atoms|, show, fmt).Ok?
      && GeomFromDict(d, show, fmt).value == Join(Lines(atoms, frame, |atoms|, show, fmt).value)
  {
  }

  /** Every line of a successful rendering is its atom's formatted row. */
  lemma LinesFormatted(atoms: seq<Value>, frame: Value, show: Value -> string, fmt: real -> string)
    requires Lines(atoms, frame, |atoms|, show, fmt).Ok?
    ensures |Lines(atoms, frame, |atoms|, show, fmt).value| == |atoms|
    ensures forall i :: 0 <= i < |atoms| ==>
              && RowReadable(frame, i)
              && Lines(atoms, frame, |atoms|, show, fmt).value[i] == FormatAtom(atoms[i], frame.items[i].items, show, fmt)
  {
    LinesDefined(atoms, frame, |atoms|, show, fmt);
    forall i | 0 <= i < |atoms|
      ensures RowReadable(frame, i)
      ensures AtomLine(atoms, frame, i, show, fmt).value == FormatAtom(atoms[i], frame.items[i].items, show, fmt)
    {
      AtomLineDefined(atoms, frame, i, show, fmt);
    }
  }

  /** The joined lines of all atoms, one formatted row per line. */
  lemma RenderedLines(atoms: seq<Value>, frame: Value, text: string, show: Value -> string, fmt: real -> string)
    requires Lines(atoms, frame, |atoms|, show, fmt).Ok?
    requires text == Join(Lines(atoms, frame, |atoms|, show, fmt).value)
    requires AtomsPrintable(atoms, show)
    requires forall x :: NoNewline(fmt(x))
    ensures |atoms| == 0 ==> text == ""
    ensures |atoms| > 0 ==>
              && |Split(text)| == |atoms|
              && (forall i :: 0 <= i < |atoms| ==>
                    RowReadable(frame, i) && Split(text)[i] == FormatAtom(atoms[i], frame.items[i].items, show, fmt))
              && |text| > 0 && text[|text| - 1] != '\n'
  {
    JoinedLines(atoms, frame, show, fmt);
    LinesFormatted(atoms, frame, show, fmt);
  }

  /**
   * The rendered text has one line per entry of `atomnos`, line i being that
   * atom's entry and its coordinates in the last frame of `atomcoords`
   * (then a list), and no newline after the last line; no atoms render as the empty string.
   */
  lemma GeomFromDictLines(d: Entries, show: Value -> string, fmt: real -> string)
    requires GeomFromDict(d, show, fmt).Ok?
    requires Lookup(d, AtomNos).Some? && Symbols(Lookup(d, AtomNos).value).Ok? ==>
               AtomsPrintable(Symbols(Lookup(d, AtomNos).value).value, show)
    requires forall x :: NoNewline(fmt(x))
    ensures Lookup(d, AtomNos).Some? && Symbols(Lookup(d, AtomNos).value).Ok?
    ensures Lookup(d, AtomCoords).Some? && LastFrame(Lookup(d, AtomCoords).value).Ok?
    ensures
      var atoms := Symbols(Lookup(d, AtomNos).value).value;
      var frame := LastFrame(Lookup(d, AtomCoords).value).value;
      var text := GeomFromDict(d, show, fmt).value;
      && (|atoms| == 0 ==> text == "")
      && (|atoms| > 0 ==>
            && |Split(text)| == |atoms|
            && (forall i :: 0 <= i < |atoms| ==>
                  RowReadable(frame, i) && Split(text)[i] == FormatAtom(atoms[i], frame.items[i].items, show, fmt))
            && |text| > 0 && text[|text| - 1] != '\n')
  {
    GeomFromDictUnfold(d, show, fmt);
    var atoms := Symbols(Lookup(d, AtomNos).value).value;
    var frame := LastFrame(Lookup(d, AtomCoords).value).value;
    var text := GeomFromDict(d, show, fmt).value;
    RenderedLines(atoms, frame, text, show, fmt);
  }
}
