/**
 What the components of a path are.

 `strtok_r` is used with the slash alone, so a path is runs of slashes and names
 by turns. Exactly one list of names can be read off it, and it is the one the
 walks take.
 */
module WasiNames {
  import opened WasiKernel

  predicate Slashes(s: string) {
    forall c :: c in s ==> c == '/'
  }

  predicate IsName(s: string) {
    s != "" && '/' !in s
  }

  /** The gaps before, between and behind the names, and the names, by turns. */
  function Weave(gaps: seq<string>, names: seq<string>): string
    requires |gaps| == |names| + 1
  {
    if names == [] then gaps[0] else gaps[0] + (names[0] + Weave(gaps[1..], names[1..]))
  }

  /** Gaps are runs of slashes; only the first and the last may be empty. */
  predicate Gaps(gaps: seq<string>) {
    && gaps != []
    && (forall i :: 0 <= i < |gaps| ==> Slashes(gaps[i]))
    && (forall i :: 0 < i < |gaps| - 1 ==> gaps[i] != "")
  }

  /** The path is these names, each whole, with slashes before, between and behind them. */
  predicate Written(path: string, gaps: seq<string>, names: seq<string>) {
    && (forall i :: 0 <= i < |names| ==> IsName(names[i]))
    && |gaps| == |names| + 1 && Gaps(gaps) && path == Weave(gaps, names)
  }

  lemma {:induction false} SkipSlashes(gap: string, rest: string)
    requires Slashes(gap)
    ensures Split(gap + rest, "") == Split(rest, "")
  {
    if gap == "" {
      assert gap + rest == rest;
    } else {
      assert gap[0] in gap && (gap + rest)[1..] == gap[1..] + rest;
      assert forall c :: c in gap[1..] ==> c in gap;
      SkipSlashes(gap[1..], rest);
    }
  }

  lemma {:induction false} TakeName(run: string, name: string, rest: string)
    requires '/' !in name
    ensures Split(name + rest, run) == Split(rest, run + name)
    decreases |name|
  {
    if name == "" {
      assert name + rest == rest && run + name == run;
    } else {
      assert name[0] in name && (name + rest)[1..] == name[1..] + rest;
      TakeName(run + [name[0]], name[1..], rest);
      assert run + [name[0]] + name[1..] == run + name;
    }
  }

  /** A name ends at a slash or at the end of the path. */
  lemma EndName(run: string, rest: string)
    requires run != "" && (rest == "" || rest[0] == '/')
    ensures Split(rest, run) == [run] + Split(rest, "")
  {
  }

  lemma WeaveStarts(gaps: seq<string>, names: seq<string>)
    requires |gaps| == |names| + 1 && Slashes(gaps[0]) && (names != [] ==> gaps[0] != "")
    ensures Weave(gaps, names) == "" || Weave(gaps, names)[0] == '/'
  {
    if gaps[0] != "" { assert gaps[0][0] in gaps[0]; }
  }

  lemma {:induction false} WrittenSplits(gaps: seq<string>, names: seq<string>)
    requires |gaps| == |names| + 1 && Gaps(gaps) && forall i :: 0 <= i < |names| ==> IsName(names[i])
    ensures Split(Weave(gaps, names), "") == names
    decreases |names|
  {
    if names == [] {
      assert gaps[0] + "" == gaps[0];
      SkipSlashes(gaps[0], "");
    } else {
      var more := Weave(gaps[1..], names[1..]);
      SkipSlashes(gaps[0], names[0] + more);
      TakeName("", names[0], more);
      assert "" + names[0] == names[0];
      WeaveStarts(gaps[1..], names[1..]);
      EndName(names[0], more);
      WrittenSplits(gaps[1..], names[1..]);
    }
  }

  /** Where the walk has taken `run` of a name already, the rest is written behind it. */
  lemma {:induction false} SplitWrites(path: string, run: string) returns (gaps: seq<string>)
    requires '/' !in run
    ensures Written(run + path, gaps, Split(path, run))
    ensures run != "" ==> gaps[0] == ""
    decreases |path|
  {
    if path == "" {
      gaps := if run == "" then [""] else ["", ""];
      assert run != "" ==> ["", ""][1..] == [""] && [run][1..] == [];
    } else if path[0] == '/' {
      var more := SplitWrites(path[1..], "");
      gaps := AddSlash(run, path, more);
    } else {
      gaps := SplitWrites(path[1..], run + [path[0]]);
      assert run + [path[0]] + path[1..] == run + path;
    }
  }

  lemma AddSlash(run: string, path: string, more: seq<string>) returns (gaps: seq<string>)
    requires '/' !in run && path != "" && path[0] == '/' && Written(path[1..], more, Split(path[1..], ""))
    ensures Written(run + path, gaps, Split(path, run))
    ensures run != "" ==> gaps[0] == ""
  {
    var names := Split(path[1..], "");
    var first := more[0 := "/" + more[0]];
    assert first[1..] == more[1..];
    WeaveMore("/", more, names);
    assert "" + path[1..] == path[1..] && "/" + path[1..] == path;
    if run == "" {
      gaps := first;
      assert Flush(run) + names == names && run + path == path;
    } else {
      gaps := [""] + first;
      assert gaps[1..] == first && ([run] + names)[1..] == names;
      assert "" + (run + path) == run + path;
    }
  }

  lemma WeaveMore(slash: string, gaps: seq<string>, names: seq<string>)
    requires |gaps| == |names| + 1
    ensures Weave(gaps[0 := slash + gaps[0]], names) == slash + Weave(gaps, names)
  {
    var first := gaps[0 := slash + gaps[0]];
    assert first[1..] == gaps[1..];
    if names != [] {
      var rest := names[0] + Weave(gaps[1..], names[1..]);
      assert slash + gaps[0] + rest == slash + (gaps[0] + rest);
    }
  }

  /**
   The components of a path are these names exactly when the path is written with them: every name whole and in
   order, none empty, none with a slash in it, and nothing but slashes besides.
   */
  lemma ComponentsAre(path: string, names: seq<string>)
    ensures names == Components(path) <==> exists gaps :: Written(path, gaps, names)
  {
    if names == Components(path) {
      var gaps := SplitWrites(path, "");
      assert "" + path == path;
      assert Written(path, gaps, names);
    }
    if gaps :| Written(path, gaps, names) {
      WrittenSplits(gaps, names);
    }
  }

  /** A path without slashes is one component, whatever its length. */
  lemma OneName(path: string)
    requires IsName(path)
    ensures Components(path) == [path]
  {
    var gaps := ["", ""];
    assert gaps[1..] == [""] && [path][1..] == [];
    assert "" + (path + "") == path;
    assert Written(path, gaps, [path]);
    ComponentsAre(path, [path]);
  }

  /** A link's text is read whole up to 4095 characters, and only a longer one is cut, to its first 4095. */
  lemma LinkTextWhole(table: Table, dir: Node, name: string)
    requires (dir, name) in table && table[(dir, name)].ELink?
    ensures var text := table[(dir, name)].text;
      ReadLink(table, dir, name) == Text(if |text| < 4096 then text else text[..4095])
  {
  }
}
