/** `src/dot11/vendors.rs`: the table from IEEE OUI prefixes to vendor names.
    The table is built line by line from the text of the IEEE `oui.txt`
    registry; a lookup keys it by the first three groups of a formatted MAC
    address. Opening and reading the file is not modelled: the lines are
    given. */
module Vendors {
  import opened Common
  import opened Text
  import Dot11

  /** `VendorsDB`: lowercase six-digit OUI to vendor name. */
  datatype VendorsDb = VendorsDb(db: map<string, string>)

  /** What one line of the registry contributes. */
  datatype LineOutcome =
    | Skipped
    | Entry(code: string, name: string)
    /** the source panics: a `base 16` line with fewer than three tab
        fields (the first field's `split_at(6)` would panic too, but a field
        holding `base 16` is never shorter than six characters) */
    | Panics

  /** The rule applied to each line of `from_file`: split on tabs; when the
      first field contains `base 16`, its first six characters, lowercased,
      map to the third field. */
  function LineRule(line: string): (r: LineOutcome)
    ensures r.Entry? ==> |r.code| == 6 && forall i :: 0 <= i < 6 ==> !('A' <= r.code[i] <= 'Z')
    ensures r.Entry? ==> Contains(Split(line, '\t')[0], "base 16")
    ensures r.Skipped? <==> !Contains(Split(line, '\t')[0], "base 16")
  {
    var fields := Split(line, '\t');
    if !Contains(fields[0], "base 16") then Skipped
    else if |fields[0]| < 6 || |fields| < 3 then Panics
    else Entry(ToLowerAscii(fields[0][..6]), fields[2])
  }

  /** The outcome of each line, in order. */
  function Outcomes(lines: seq<string>): (outs: seq<LineOutcome>)
    ensures |outs| == |lines|
    ensures forall i :: 0 <= i < |lines| ==> outs[i] == LineRule(lines[i])
  {
    seq(|lines|, i requires 0 <= i < |lines| => LineRule(lines[i]))
  }

  /** Does some outcome add an entry for `code`? */
  predicate HasEntryFor(outs: seq<LineOutcome>, code: string)
  {
    exists i :: 0 <= i < |outs| && outs[i].Entry? && outs[i].code == code
  }

  /** The table after the outcomes in order, each later entry overwriting an
      earlier one for the same code; `None` once a line panics. */
  function Fold(outs: seq<LineOutcome>): (r: Option<map<string, string>>)
  {
    if |outs| == 0 then Some(map[])
    else
      match Fold(outs[..|outs| - 1])
      case None => None
      case Some(db) =>
        match outs[|outs| - 1]
        case Skipped => Some(db)
        case Panics => None
        case Entry(code, name) => Some(db[code := name])
  }

  /** The table `from_file` builds from the lines of the registry. */
  function DbOfLines(lines: seq<string>): (r: Option<map<string, string>>)
  {
    Fold(Outcomes(lines))
  }

  /** `from_file` over the lines of the file: a loop inserting each entry. */
  method FromLines(lines: seq<string>) returns (r: Option<VendorsDb>)
    ensures r.None? <==> DbOfLines(lines).None?
    ensures r.Some? ==> r.value.db == DbOfLines(lines).value
  {
    ghost var outs := Outcomes(lines);
    var vendors: map<string, string> := map[];
    var i := 0;
    while i < |lines|
      invariant 0 <= i <= |lines|
      invariant Fold(outs[..i]) == Some(vendors)
    {
      assert outs[..i + 1][..i] == outs[..i];
      match LineRule(lines[i]) {
        case Skipped =>
        case Panics =>
          PanicIsFinal(outs, i + 1);
          return None;
        case Entry(code, name) => vendors := vendors[code := name];
      }
      i := i + 1;
    }
    assert outs[..|lines|] == outs;
    return Some(VendorsDb(vendors));
  }

  /** Once a prefix of the outcomes panics, so does every longer prefix. */
  lemma {:induction false} PanicIsFinal(outs: seq<LineOutcome>, k: nat)
    requires k <= |outs|
    requires Fold(outs[..k]).None?
    ensures Fold(outs).None?
  {
    if k < |outs| {
      assert outs[..|outs| - 1][..k] == outs[..k];
      PanicIsFinal(outs[..|outs| - 1], k);
    } else {
      assert outs[..k] == outs;
    }
  }

  /** Reading fails exactly when some line panics. */
  lemma {:induction false} FoldFailsIffPanic(outs: seq<LineOutcome>)
    ensures Fold(outs).None? <==> exists i :: 0 <= i < |outs| && outs[i].Panics?
  {
    if |outs| > 0 {
      var init := outs[..|outs| - 1];
      FoldFailsIffPanic(init);
      assert forall i :: 0 <= i < |init| ==> init[i] == outs[i];
    }
  }

  /** A code is in the table exactly when some line adds it. */
  lemma {:induction false} EntriesAreInTable(outs: seq<LineOutcome>, code: string)
    requires Fold(outs).Some?
    ensures code in Fold(outs).value <==> HasEntryFor(outs, code)
  {
    if |outs| > 0 {
      var n := |outs| - 1;
      var init := outs[..n];
      EntriesAreInTable(init, code);
      assert forall i :: 0 <= i < n ==> init[i] == outs[i];
      if HasEntryFor(outs, code) && !(outs[n].Entry? && outs[n].code == code) {
        var i :| 0 <= i < |outs| && outs[i].Entry? && outs[i].code == code;
        assert HasEntryFor(init, code);
      }
    }
  }

  /** The name stored for a code is that of the LAST line adding it. */
  lemma {:induction false} LaterLineWins(outs: seq<LineOutcome>, code: string)
    requires Fold(outs).Some? && code in Fold(outs).value
    ensures exists i :: (0 <= i < |outs| && outs[i] == Entry(code, Fold(outs).value[code])
      && forall j :: i < j < |outs| ==> !(outs[j].Entry? && outs[j].code == code))
  {
    var n := |outs| - 1;
    var init := outs[..n];
    var db := Fold(outs).value;
    if outs[n].Entry? && outs[n].code == code {
      assert outs[n] == Entry(code, db[code]);
    } else {
      assert init == outs[..|outs| - 1];
      var dbInit := Fold(init).value;
      assert code in dbInit && db[code] == dbInit[code];
      LaterLineWins(init, code);
      var i :| 0 <= i < |init| && init[i] == Entry(code, dbInit[code])
        && forall j :: i < j < |init| ==> !(init[j].Entry? && init[j].code == code);
      assert outs[i] == Entry(code, db[code]);
      forall j | i < j < |outs|
        ensures !(outs[j].Entry? && outs[j].code == code)
      {
        if j < n {
          assert outs[j] == init[j];
        }
      }
    }
  }

  /** Every code in the table is six characters with no uppercase letter. */
  lemma CodesAreLowercase(lines: seq<string>, code: string)
    requires DbOfLines(lines).Some? && code in DbOfLines(lines).value
    ensures |code| == 6 && forall i :: 0 <= i < 6 ==> !('A' <= code[i] <= 'Z')
  {
    EntriesAreInTable(Outcomes(lines), code);
  }

  /** A registry line in the `(base 16)` form adds its lowercased prefix,
      mapped to the name after the two tabs. */
  lemma RegistryLineExample()
    ensures LineRule("00000C (base 16)\t\tCisco") == Entry("00000c", "Cisco")
  {
    ExampleLineFields();
    ExampleFirstField();
  }

  lemma ExampleLineFields()
    ensures Split("00000C (base 16)\t\tCisco", '\t') == ["00000C (base 16)", "", "Cisco"]
  {
    assert "00000C (base 16)\t\tCisco" == "00000C (base 16)" + ['\t'] + ("" + ['\t'] + "Cisco");
    SplitThree("00000C (base 16)", "", "Cisco", '\t');
  }

  /** Any line made of tab-free fields: it is skipped exactly when its first
      field lacks `base 16`, and panics exactly when that field has it but
      there are fewer than three fields; otherwise the first six characters
      of the first field, lowercased, map to the third field. */
  lemma LineRuleOfFields(fields: seq<string>)
    requires |fields| >= 1
    requires forall i :: 0 <= i < |fields| ==> '\t' !in fields[i]
    ensures var r := LineRule(Join(fields, '\t'));
      && (r.Skipped? <==> !Contains(fields[0], "base 16"))
      && (r.Panics? <==> Contains(fields[0], "base 16") && |fields| < 3)
      && (r.Entry? ==> |fields| >= 3 && |fields[0]| >= 6 && r == Entry(ToLowerAscii(fields[0][..6]), fields[2]))
  {
    SplitJoin(fields, '\t');
    if Contains(fields[0], "base 16") {
      ContainsOnlyShorter(fields[0], "base 16");
    }
  }

  /** A registry line whose first field is a six-character prefix followed
      by text containing `base 16` maps the lowercased prefix to the name in
      its third field, whatever the second field holds. */
  lemma LineRuleEntry(prefix: string, rest: string, mid: string, name: string)
    requires |prefix| == 6
    requires '\t' !in prefix + rest && '\t' !in mid && '\t' !in name
    requires Contains(prefix + rest, "base 16")
    ensures LineRule(prefix + rest + "\t" + mid + "\t" + name) == Entry(ToLowerAscii(prefix), name)
  {
    var first := prefix + rest;
    var fields := [first, mid, name];
    LineRuleOfFields(fields);
    assert fields[1..] == [mid, name];
    assert fields[1..][1..] == [name];
    assert Join(fields[1..], '\t') == mid + "\t" + name;
    var line := prefix + rest + "\t" + mid + "\t" + name;
    assert line == first + "\t" + (mid + "\t" + name);
    assert Join(fields, '\t') == line;
    assert first[..6] == prefix;
    assert LineRule(line).Entry?;
  }

  /** Three fields free of the separator split back apart. */
  lemma SplitThree(a: string, b: string, c: string, sep: char)
    requires sep !in a && sep !in b && sep !in c
    ensures Split(a + [sep] + (b + [sep] + c), sep) == [a, b, c]
  {
    SplitCons(a, sep, b + [sep] + c);
    SplitCons(b, sep, c);
  }

  lemma ExampleFirstField()
    ensures Contains("00000C (base 16)", "base 16")
    ensures ToLowerAscii("00000C (base 16)"[..6]) == "00000c"
  {
    var first := "00000C (base 16)";
    assert first[8..][..7] == "base 16";
    ContainsSuffix(first, "base 16", 8);
    assert first[..6] == "00000C";
  }

  /** A MAC address has a lookup key when it has at least three groups. */
  predicate HasKey(mac: string)
  {
    |Split(mac, ':')| >= 3
  }

  /** The key `lookup` builds: the first three `:`-separated groups, joined. */
  function LookupKey(mac: string): (key: string)
    requires HasKey(mac)
  {
    var v := Split(mac, ':');
    v[0] + v[1] + v[2]
  }

  /** `lookup`: the vendor stored under the key, or `""` when there is none.
      Indexing the groups panics on a MAC with fewer than three groups, which
      the precondition rules out. */
  function Lookup(vendors: VendorsDb, mac: string): (vendor: string)
    requires HasKey(mac)
    ensures LookupKey(mac) in vendors.db ==> vendor == vendors.db[LookupKey(mac)]
    ensures LookupKey(mac) !in vendors.db ==> vendor == ""
  {
    var key := LookupKey(mac);
    if key in vendors.db then vendors.db[key] else ""
  }

  /** A formatted MAC field always has a key: its first three octets in
      lowercase hexadecimal, which is the form of the table's codes. */
  lemma KeyOfMacField(s: seq<byte>)
    requires |s| >= 6
    ensures HasKey(Dot11.MacFieldFromSlice(s))
    ensures LookupKey(Dot11.MacFieldFromSlice(s)) == Hex2(s[0]) + Hex2(s[1]) + Hex2(s[2])
  {
    Dot11.MacFieldGroups(s);
  }

  /** The empty string, the BSSID of a frame with both DS flags set, has no
      key: looking it up panics. */
  lemma EmptyMacHasNoKey()
    ensures !HasKey("")
  {
  }

  /** A table read from one registry line answers lookups for every MAC
      address with that prefix. */
  lemma LookupExample(s: seq<byte>)
    requires |s| >= 6 && s[0] == 0x00 && s[1] == 0x00 && s[2] == 0x0c
    ensures DbOfLines(["00000C (base 16)\t\tCisco"]) == Some(map["00000c" := "Cisco"])
    ensures HasKey(Dot11.MacFieldFromSlice(s))
    ensures Lookup(VendorsDb(map["00000c" := "Cisco"]), Dot11.MacFieldFromSlice(s)) == "Cisco"
  {
    ExampleTable();
    ExampleKey(s);
  }

  lemma ExampleTable()
    ensures DbOfLines(["00000C (base 16)\t\tCisco"]) == Some(map["00000c" := "Cisco"])
  {
    var lines := ["00000C (base 16)\t\tCisco"];
    RegistryLineExample();
    var outs := Outcomes(lines);
    assert outs == [Entry("00000c", "Cisco")];
    assert outs[..0] == [];
  }

  lemma ExampleKey(s: seq<byte>)
    requires |s| >= 6 && s[0] == 0x00 && s[1] == 0x00 && s[2] == 0x0c
    ensures HasKey(Dot11.MacFieldFromSlice(s)) && LookupKey(Dot11.MacFieldFromSlice(s)) == "00000c"
  {
    KeyOfMacField(s);
    Hex2Examples();
  }
}
