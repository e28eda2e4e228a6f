/** The vendor lookup for hardware addresses: a table from the first six
    hexadecimal digits of a MAC address (its OUI), upper-cased and without
    separators, to a vendor's short name, filled line by line from a
    vendor file and queried with a MAC address in any common notation. */
module MacVendor {
  import opened Wrappers
  import opened Text

  /** A separator `extractOUI` removes. */
  predicate IsSeparator(c: char)
  {
    c == ':' || c == '-' || c == '.'
  }

  /** The address with every ':', '-' and '.' removed. */
  function Stripped(mac: string): string
  {
    Without(Without(Without(mac, ':'), '-'), '.')
  }

  /** No separator survives stripping. */
  lemma StrippedHasNoSeparator(mac: string, i: nat)
    requires i < |Stripped(mac)|
    ensures !IsSeparator(Stripped(mac)[i])
  {
    var t1 := Without(mac, ':');
    var t2 := Without(t1, '-');
    WithoutKeeps(t2, '.', i);
    var c := Stripped(mac)[i];
    var j :| 0 <= j < |t2| && t2[j] == c;
    WithoutKeeps(t1, '-', j);
    var k :| 0 <= k < |t1| && t1[k] == c;
    WithoutKeeps(mac, ':', k);
  }

  /** `extractOUI`: the separators removed; fewer than six characters left
      give the empty string, otherwise the first six, upper-cased. */
  function ExtractOui(mac: string): (oui: string)
    ensures oui == [] <==> |Stripped(mac)| < 6
    ensures oui != [] ==> |oui| == 6
    ensures forall i :: 0 <= i < |oui| ==> !IsSeparator(oui[i]) && !('a' <= oui[i] <= 'z')
  {
    var t := Stripped(mac);
    if |t| < 6 then ""
    else
      assert forall i :: 0 <= i < 6 ==> !IsSeparator(t[i]) by {
        forall i | 0 <= i < 6 {
          StrippedHasNoSeparator(mac, i);
        }
      }
      ToUpper(t)[..6]
  }

  lemma StrippedConcat(a: string, b: string)
    ensures Stripped(a + b) == Stripped(a) + Stripped(b)
  {
    WithoutConcat(a, b, ':');
    WithoutConcat(Without(a, ':'), Without(b, ':'), '-');
    WithoutConcat(Without(Without(a, ':'), '-'), Without(Without(b, ':'), '-'), '.');
  }

  lemma StrippedSeparator(c: char)
    requires IsSeparator(c)
    ensures Stripped([c]) == []
  {
    assert [c][1..] == [];
    var t1 := Without([c], ':');
    if c == ':' {
      assert t1 == [];
    } else {
      assert t1 == [c];
      assert t1[1..] == [];
      var t2 := Without(t1, '-');
      if c != '-' {
        assert t2 == [c];
      }
    }
  }

  lemma StrippedDropsSeparator(a: string, b: string, c: char)
    requires IsSeparator(c)
    ensures Stripped(a + [c] + b) == Stripped(a + b)
  {
    var x := a + [c];
    StrippedConcat(x, b);
    StrippedConcat(a, [c]);
    StrippedSeparator(c);
    assert Stripped(x) == Stripped(a);
    StrippedConcat(a, b);
  }

  /** A separator anywhere in the address, or none, gives the same OUI. */
  lemma OuiIgnoresSeparator(a: string, b: string, c: char)
    requires IsSeparator(c)
    ensures ExtractOui(a + [c] + b) == ExtractOui(a + b)
  {
    StrippedDropsSeparator(a, b, c);
  }

  lemma CaseConcat(x: string, y: string)
    ensures ToUpper(x + y) == ToUpper(x) + ToUpper(y)
    ensures ToLower(x + y) == ToLower(x) + ToLower(y)
  {
  }

  /** Upper-casing commutes with removing a character that is no letter. */
  lemma {:induction false} WithoutUpper(s: string, c: char)
    requires !('a' <= c <= 'z') && !('A' <= c <= 'Z')
    ensures Without(ToUpper(s), c) == ToUpper(Without(s, c))
    decreases |s|
  {
    if s != [] {
      var head: string := if s[0] == c then [] else [s[0]];
      assert ToUpper(s) == ToUpper([s[0]]) + ToUpper(s[1..]) by {
        CaseConcat([s[0]], s[1..]);
        assert s == [s[0]] + s[1..];
      }
      WithoutConcat(ToUpper([s[0]]), ToUpper(s[1..]), c);
      WithoutUpper(s[1..], c);
      CaseConcat(head, Without(s[1..], c));
    }
  }

  lemma {:induction false} WithoutLower(s: string, c: char)
    requires !('a' <= c <= 'z') && !('A' <= c <= 'Z')
    ensures Without(ToLower(s), c) == ToLower(Without(s, c))
    decreases |s|
  {
    if s != [] {
      var head: string := if s[0] == c then [] else [s[0]];
      assert ToLower(s) == ToLower([s[0]]) + ToLower(s[1..]) by {
        CaseConcat([s[0]], s[1..]);
        assert s == [s[0]] + s[1..];
      }
      WithoutConcat(ToLower([s[0]]), ToLower(s[1..]), c);
      WithoutLower(s[1..], c);
      CaseConcat(head, Without(s[1..], c));
    }
  }

  lemma StrippedCase(mac: string)
    ensures Stripped(ToUpper(mac)) == ToUpper(Stripped(mac))
    ensures Stripped(ToLower(mac)) == ToLower(Stripped(mac))
  {
    WithoutUpper(mac, ':');
    WithoutUpper(Without(mac, ':'), '-');
    WithoutUpper(Without(Without(mac, ':'), '-'), '.');
    WithoutLower(mac, ':');
    WithoutLower(Without(mac, ':'), '-');
    WithoutLower(Without(Without(mac, ':'), '-'), '.');
  }

  /** The letter case of the address does not change its OUI. */
  lemma OuiIgnoresCase(mac: string)
    ensures ExtractOui(ToUpper(mac)) == ExtractOui(mac)
    ensures ExtractOui(ToLower(mac)) == ExtractOui(mac)
  {
    StrippedCase(mac);
    var t := Stripped(mac);
    assert ToUpper(ToUpper(t)) == ToUpper(t);
    assert ToUpper(ToLower(t)) == ToUpper(t);
  }

  /** What one line of the vendor file contributes: nothing for an empty
      or comment line; otherwise the first word without ':' and '-' and,
      when at least six characters remain, its first six upper-cased as
      the key and the second word (empty if none) as the short name. */
  function LineEntry(line: string): (e: Option<(string, string)>)
    ensures line == [] || line[0] == '#' ==> e.None?
    ensures e.Some? ==> |e.value.0| == 6
  {
    if line == [] || line[0] == '#' then None
    else
      var ws := Tokens(line);
      var oui := if |ws| >= 1 then ws[0] else "";
      var name := if |ws| >= 2 then ws[1] else "";
      var key := Without(Without(oui, ':'), '-');
      if |key| >= 6 then Some((ToUpper(key)[..6], name)) else None
  }

  /** A vendor-file line whose first word has no '.' is keyed by that
      word's OUI: looking up an address written the way the file writes it
      finds the line's entry. */
  lemma LineKeyIsOui(line: string)
    requires LineEntry(line).Some?
    requires '.' !in Tokens(line)[0]
    ensures LineEntry(line).value.0 == ExtractOui(Tokens(line)[0])
  {
    var ws := Tokens(line);
    var key := Without(Without(ws[0], ':'), '-');
    assert '.' !in key by {
      forall i | 0 <= i < |key|
        ensures key[i] != '.'
      {
        WithoutKeeps(Without(ws[0], ':'), '-', i);
        var j :| 0 <= j < |Without(ws[0], ':')| && Without(ws[0], ':')[j] == key[i];
        WithoutKeeps(ws[0], ':', j);
      }
    }
    WithoutAbsent(key, '.');
  }

  /** The line's entry stored in the table, the latest line winning. */
  function Store(table: map<string, string>, e: Option<(string, string)>): map<string, string>
  {
    match e
    case Some((k, v)) => table[k := v]
    case None => table
  }

  /** The table after reading the lines in order. */
  function Loaded(table: map<string, string>, lines: seq<string>): map<string, string>
    decreases |lines|
  {
    if lines == [] then table
    else Store(Loaded(table, lines[..|lines| - 1]), LineEntry(lines[|lines| - 1]))
  }

  /** The line stores an entry under the key k. */
  predicate KeyedBy(line: string, k: string)
  {
    LineEntry(line).Some? && LineEntry(line).value.0 == k
  }

  /** The last line keyed by k decides k's name: later lines overwrite
      earlier ones. */
  lemma {:induction false} LastLineWins(table: map<string, string>, lines: seq<string>, i: nat, k: string, name: string)
    requires i < |lines| && LineEntry(lines[i]) == Some((k, name))
    requires forall j :: i < j < |lines| ==> !KeyedBy(lines[j], k)
    ensures k in Loaded(table, lines) && Loaded(table, lines)[k] == name
    decreases |lines|
  {
    var front := lines[..|lines| - 1];
    if i < |lines| - 1 {
      LastLineWins(table, front, i, k, name);
    }
  }

  /** A key no line stores keeps its place in the table: present with the
      same name, or absent. */
  lemma {:induction false} UnkeyedUnchanged(table: map<string, string>, lines: seq<string>, k: string)
    requires forall j :: 0 <= j < |lines| ==> !KeyedBy(lines[j], k)
    ensures k in Loaded(table, lines) <==> k in table
    ensures k in table ==> Loaded(table, lines)[k] == table[k]
    decreases |lines|
  {
    if lines != [] {
      UnkeyedUnchanged(table, lines[..|lines| - 1], k);
    }
  }

  /** `getVendor` on a table: "Unknown" when the address has no OUI or the
      OUI is not in the table, the stored name otherwise. */
  function Vendor(table: map<string, string>, mac: string): (v: string)
    ensures ExtractOui(mac) == [] || ExtractOui(mac) !in table ==> v == "Unknown"
    ensures ExtractOui(mac) != [] && ExtractOui(mac) in table ==> v == table[ExtractOui(mac)]
  {
    var oui := ExtractOui(mac);
    if oui == [] then "Unknown"
    else if oui in table then table[oui]
    else "Unknown"
  }

  /** After loading, an address resolves to the name on the last line
      keyed by its OUI. */
  lemma ResolvesToLastLine(table: map<string, string>, lines: seq<string>, i: nat, mac: string, name: string)
    requires i < |lines| && LineEntry(lines[i]) == Some((ExtractOui(mac), name))
    requires forall j :: i < j < |lines| ==> !KeyedBy(lines[j], ExtractOui(mac))
    ensures Vendor(Loaded(table, lines), mac) == name
  {
    LastLineWins(table, lines, i, ExtractOui(mac), name);
  }

  /** `MacResolver`: the OUI table. */
  class MacResolver {
    var ouiTable: map<string, string>

    constructor ()
      ensures ouiTable == map[]
    {
      ouiTable := map[];
    }

    /** `loadDatabase` over the file's lines; fileOpened says whether the
        file could be opened.  Nothing is read from a file that could not
        be opened. */
    method LoadDatabase(lines: seq<string>, fileOpened: bool) returns (ok: bool)
      modifies this
      ensures ok == fileOpened
      ensures ouiTable == if fileOpened then Loaded(old(ouiTable), lines) else old(ouiTable)
    {
      if !fileOpened {
        return false;
      }
      var i := 0;
      while i < |lines|
        invariant 0 <= i <= |lines|
        invariant ouiTable == Loaded(old(ouiTable), lines[..i])
      {
        assert lines[..i + 1][..i] == lines[..i];
        var line := lines[i];
        if line == [] || line[0] == '#' {
          i := i + 1;
          continue;
        }
        var ws := Tokens(line);
        var oui := if |ws| >= 1 then ws[0] else "";
        var shortName := if |ws| >= 2 then ws[1] else "";
        oui := Without(oui, ':');
        oui := Without(oui, '-');
        if |oui| >= 6 {
          oui := ToUpper(oui);
          ouiTable := ouiTable[oui[..6] := shortName];
        }
        i := i + 1;
      }
      assert lines[..i] == lines;
      return true;
    }

    /** `getVendor`. */
    function GetVendor(mac: string): string
      reads this
    {
      Vendor(ouiTable, mac)
    }
  }
}
