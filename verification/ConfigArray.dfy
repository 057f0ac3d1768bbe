/** Splitting a configuration value into an array (src/libpatchwork/config.c). */
module ConfigArray {
  predicate IsSpace(c: char) { c == ' ' || '\t' <= c <= '\r' }

  // ---- what the array should hold ---------------------------------------------------------------------

  function CommaAt(s: string): (i: nat)
    ensures i <= |s| && (i < |s| ==> s[i] == ',') && forall j :: 0 <= j < i ==> s[j] != ','
  {
    if s == [] || s[0] == ',' then 0 else 1 + CommaAt(s[1..])
  }

  /** The parts between commas. */
  function Fields(s: string): seq<string>
    decreases |s|
  {
    var i := CommaAt(s);
    if i == |s| then [s] else [s[..i]] + Fields(s[i + 1..])
  }

  function TrimLeft(s: string): string { if s != [] && IsSpace(s[0]) then TrimLeft(s[1..]) else s }

  function TrimRight(s: string): string { if s != [] && IsSpace(s[|s| - 1]) then TrimRight(s[..|s| - 1]) else s }

  function Trim(s: string): string { TrimRight(TrimLeft(s)) }

  function Keep(fields: seq<string>): seq<string> {
    if fields == [] then [] else (if Trim(fields[0]) != [] then [Trim(fields[0])] else []) + Keep(fields[1..])
  }

  /** The parts between commas, trimmed, without the empty ones. */
  function Items(s: string): seq<string> { Keep(Fields(s)) }

  const BLANKS := {' ', '\t', '\n', '\U{b}', '\U{c}', '\r'}

  lemma {:induction false} TrimEnds(s: string)
    ensures TrimRight(s) != [] ==> s != [] && TrimRight(s)[|TrimRight(s)| - 1] !in BLANKS && TrimRight(s)[0] == s[0]
    ensures TrimLeft(s) != [] ==> TrimLeft(s)[0] !in BLANKS
    ensures forall c :: c in TrimRight(s) || c in TrimLeft(s) ==> c in s
    decreases |s|
  {
    if s == [] {
    } else {
      TrimEnds(s[..|s| - 1]);
      TrimEnds(s[1..]);
    }
  }

  /** Not empty, without a comma, and with no blank at either end. */
  predicate Clean(item: string) { item != [] && ',' !in item && item[0] !in BLANKS && item[|item| - 1] !in BLANKS }

  /** Every item is clean. */
  lemma {:induction false} ItemsClean(s: string, item: string)
    requires item in Items(s)
    ensures Clean(item)
    decreases |s|
  {
    hide Trim, TrimLeft, TrimRight, Items, Fields, Keep, CommaAt;
    var i := CommaAt(s);
    NextItem(s, i, Trim(s[..i]));
    if item == Trim(s[..i]) && item != [] {
      assert ',' !in s[..i];
      TrimClean(s[..i]);
    } else {
      NothingLeft();
      ItemsClean(s[i + 1..], item);
    }
  }

  lemma TrimClean(s: string)
    requires Trim(s) != []
    ensures Trim(s)[0] !in BLANKS && Trim(s)[|Trim(s)| - 1] !in BLANKS && forall c :: c in Trim(s) ==> c in s
  {
    hide TrimLeft, TrimRight;
    TrimEnds(s);
    TrimEnds(TrimLeft(s));
  }

  // ---- the parser -------------------------------------------------------------------------------------

  lemma CommaIs(s: string, i: nat)
    requires i <= |s| && (i < |s| ==> s[i] == ',') && forall j :: 0 <= j < i ==> s[j] != ','
    ensures CommaAt(s) == i
  {}

  lemma NothingLeft()
    ensures Items([]) == []
  {
    assert Fields([]) == [[]];
  }

  /** A blank at the front makes no difference. */
  lemma SkipBlank(s: string)
    requires s != [] && IsSpace(s[0])
    ensures Items(s[1..]) == Items(s)
  {
    var i := CommaAt(s);
    assert i == 1 + CommaAt(s[1..]);
    if i < |s| {
      assert s[1..][..i - 1] == s[..i][1..] && s[1..][i..] == s[i + 1..];
      assert Trim(s[..i]) == Trim(s[..i][1..]);
      assert Fields(s) == [s[..i]] + Fields(s[i + 1..]) && Fields(s[1..]) == [s[1..][..i - 1]] + Fields(s[i + 1..]);
    } else {
      assert Trim(s) == Trim(s[1..]);
      assert Fields(s) == [s] && Fields(s[1..]) == [s[1..]];
      OneField(s);
      OneField(s[1..]);
    }
  }

  lemma OneField(s: string)
    ensures Keep([s]) == if Trim(s) != [] then [Trim(s)] else []
  {
    hide Trim;
    assert [s][1..] == [];
  }

  /** The next item is the trimmed text up to the comma, if any is left; the rest follows the comma. */
  lemma NextItem(s: string, i: nat, item: string)
    requires i == CommaAt(s) && item == Trim(s[..i])
    ensures Items(s) == (if item != [] then [item] else []) + Items(if i < |s| then s[i + 1..] else [])
  {
    NothingLeft();
    if i == |s| {
      assert s[..i] == s;
      assert Keep([s]) == (if item != [] then [item] else []) + Keep([]);
    } else {
      var f := Fields(s);
      assert f == [s[..i]] + Fields(s[i + 1..]);
      assert f[0] == s[..i] && f[1..] == Fields(s[i + 1..]);
    }
  }

  lemma TrimRightStep(s: string, e: nat)
    requires e < |s| && TrimRight(s) == TrimRight(s[..e + 1]) && IsSpace(s[e])
    ensures TrimRight(s) == TrimRight(s[..e])
  {
    assert s[..e + 1][..e] == s[..e];
  }

  /** The end of the field that begins at start, and the end of its text without trailing blanks. */
  method ScanField(str: string, start: nat) returns (p: nat, end: nat)
    requires start < |str| && !IsSpace(str[start])
    ensures start <= end <= p <= |str| && p - start == CommaAt(str[start..]) && Trim(str[start..p]) == str[start..end]
  {
    hide Trim, TrimRight, CommaAt;
    p := start;
    while p < |str| && str[p] != ','
      invariant start <= p <= |str| && forall j :: start <= j < p ==> str[j] != ','
    {
      p := p + 1;
    }
    CommaIs(str[start..], p - start);
    end := p;
    ghost var piece := str[start..p];
    assert piece[..end - start] == piece;
    while end > start && IsSpace(str[end - 1])
      invariant start <= end <= p && TrimRight(piece) == TrimRight(piece[..end - start])
    {
      TrimRightStep(piece, end - 1 - start);
      end := end - 1;
    }
    Trimmed(piece, end - start);
  }

  /** config_get_array on a value: the items, and how many bytes of the data area they and their terminators take. */
  method GetArray(str: string) returns (items: seq<string>, used: nat)
    ensures items == Items(str)
    ensures forall item :: item in items ==> Clean(item)
    ensures |items| <= |str| && (str != [] ==> used <= |str| + 1)
  {
    hide Items, Trim, CommaAt;
    items, used := [], 0;
    NothingLeft();
    var p: nat := 0;
    assert str[0..] == str;
    while p < |str|
      invariant p <= |str| && items + Items(str[p..]) == Items(str)
      invariant 2 * |items| <= used && (used <= p || (p == |str| && used <= p + 1))
      decreases |str| - p
    {
      ghost var first := p;
      while p < |str| && IsSpace(str[p])
        invariant first <= p <= |str| && items + Items(str[p..]) == Items(str)
      {
        SkipBlank(str[p..]);
        assert str[p..][1..] == str[p + 1..];
        p := p + 1;
      }
      if p == |str| {
        break;
      }
      var start, end := p, p;
      p, end := ScanField(str, start);
      Rest(str, start, p, str[start..end]);
      if end > start {
        items := items + [str[start..end]];
        used := used + (end - start) + 1;
      }
      if p < |str| && str[p] == ',' { p := p + 1; }
    }
    assert str[p..] == [];
    forall item | item in items ensures Clean(item) { ItemsClean(str, item); }
  }

  lemma Rest(str: string, start: nat, p: nat, item: string)
    requires start <= p <= |str| && p - start == CommaAt(str[start..]) && item == Trim(str[start..p])
    ensures p < |str| ==> str[p] == ','
    ensures Items(str[start..]) == (if item != [] then [item] else []) + Items(str[if p < |str| then p + 1 else p..])
  {
    hide Items, Trim;
    var s := str[start..];
    assert s[..p - start] == str[start..p];
    assert if p < |str| then s[p - start + 1..] == str[p + 1..] else str[p..] == [];
    NextItem(s, p - start, item);
  }

  lemma Trimmed(piece: string, n: nat)
    requires n <= |piece| && (piece != [] ==> !IsSpace(piece[0])) && TrimRight(piece) == TrimRight(piece[..n])
    requires n > 0 ==> !IsSpace(piece[n - 1])
    ensures Trim(piece) == piece[..n]
  {
    assert TrimRight(piece[..n]) == piece[..n];
  }

  // ---- round trip -------------------------------------------------------------------------------------

  function Join(items: seq<string>): string {
    if items == [] then [] else if |items| == 1 then items[0] else items[0] + "," + Join(items[1..])
  }

  lemma CleanStays(item: string)
    requires Clean(item)
    ensures Trim(item) == item
  {}

  /** Splitting a comma-separated list of clean items gives the items back. */
  lemma {:induction false} RoundTrip(items: seq<string>)
    requires forall i :: 0 <= i < |items| ==> Clean(items[i])
    ensures Items(Join(items)) == items
  {
    hide Items, Trim;
    NothingLeft();
    if items == [] {
    } else {
      var s, n := Join(items), |items[0]|;
      assert Clean(items[0]);
      CleanStays(items[0]);
      CommaIs(s, n);
      assert s[..n] == items[0];
      NextItem(s, n, items[0]);
      if |items| == 1 {
        assert items == [items[0]];
      } else {
        assert s[n + 1..] == Join(items[1..]);
        RoundTrip(items[1..]);
        assert items == [items[0]] + items[1..];
      }
    }
  }
}
