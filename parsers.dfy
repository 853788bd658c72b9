/**
 * The small text parsers of main.py: the `key: value` lines of a fill
 * message (`parse_kv_message`, main.py:119-127), the `SYMBOL:sheet-id` list of
 * the configuration (`parse_spreadsheet_id_map`, main.py:232-243), the ticker
 * in brackets of a stock name (`parse_symbol`, main.py:185-189), the first
 * decimal number of a text (`parse_float`, main.py:130-134) and the reading
 * of a numeric cell that refuses formula text (main.py:137-150).
 */
module Parsers {
  import opened Wrappers
  import opened Text
  import opened Decimal
  import opened Dates

  // ---------------------------------------------------------------------
  // Splitting at separator characters

  /** No character of `s` is a separator. */
  predicate Free(s: string, isSep: char -> bool)
  {
    forall k :: 0 <= k < |s| ==> !isSep(s[k])
  }

  predicate IsComma(c: char) { c == ',' }

  /**
   * The pieces of `s` between separator characters, empty pieces included:
   * `s.split(",")` for the comma. For the line boundaries it is
   * `s.splitlines()` up to empty pieces (a "\r\n" pair, a final boundary, an
   * empty text), which both parsers skip.
   */
  function Split(s: string, isSep: char -> bool): (ps: seq<string>)
    ensures |ps| >= 1
    ensures forall i :: 0 <= i < |ps| ==> Free(ps[i], isSep)
  {
    if s == [] then [[]]
    else
      var rest := Split(s[1..], isSep);
      if isSep(s[0]) then [[]] + rest
      else [[s[0]] + rest[0]] + rest[1..]
  }

  /** The pieces glued back with `sep` between neighbours: `sep.join(ps)`. */
  function Join(ps: seq<string>, sep: char): (s: string)
    requires |ps| >= 1
  {
    if |ps| == 1 then ps[0] else ps[0] + [sep] + Join(ps[1..], sep)
  }

  /** Splitting at the only separator character and gluing back gives the text back. */
  lemma {:induction false} JoinOfSplit(s: string, isSep: char -> bool, sep: char)
    requires forall c :: isSep(c) <==> c == sep
    ensures Join(Split(s, isSep), sep) == s
  {
    if s != [] {
      JoinOfSplit(s[1..], isSep, sep);
      var rest := Split(s[1..], isSep);
      if !isSep(s[0]) {
        var ps := [[s[0]] + rest[0]] + rest[1..];
        assert ps[1..] == rest[1..];
        if |rest| > 1 {
          assert Join(rest, sep) == rest[0] + [sep] + Join(rest[1..], sep);
        }
        assert s == [s[0]] + s[1..];
      } else {
        assert ([[]] + rest)[1..] == rest;
        assert s == [s[0]] + s[1..];
      }
    }
  }

  /** A separator-free head is kept whole in front of the first piece of the rest. */
  lemma {:induction false} SplitFreeHead(p: string, t: string, isSep: char -> bool)
    requires Free(p, isSep)
    ensures Split(p + t, isSep) == [p + Split(t, isSep)[0]] + Split(t, isSep)[1..]
  {
    if p == [] {
      assert p + t == t;
      assert p + Split(t, isSep)[0] == Split(t, isSep)[0];
      assert [Split(t, isSep)[0]] + Split(t, isSep)[1..] == Split(t, isSep);
    } else {
      SplitFreeHead(p[1..], t, isSep);
      assert (p + t)[1..] == p[1..] + t;
      assert (p + t)[0] == p[0];
      assert [p[0]] + (p[1..] + Split(t, isSep)[0]) == p + Split(t, isSep)[0];
    }
  }

  /** Gluing separator-free pieces and splitting again gives the pieces back. */
  lemma {:induction false} SplitOfJoin(ps: seq<string>, isSep: char -> bool, sep: char)
    requires |ps| >= 1 && isSep(sep)
    requires forall i :: 0 <= i < |ps| ==> Free(ps[i], isSep)
    ensures Split(Join(ps, sep), isSep) == ps
  {
    if |ps| == 1 {
      SplitFreeHead(ps[0], [], isSep);
      assert ps[0] + [] == ps[0];
    } else {
      var u := Join(ps[1..], sep);
      SplitOfJoin(ps[1..], isSep, sep);
      SplitFreeHead(ps[0], [sep] + u, isSep);
      assert ([sep] + u)[1..] == u;
      assert Split([sep] + u, isSep) == [[]] + ps[1..];
      assert Split([sep] + u, isSep)[0] == [] && Split([sep] + u, isSep)[1..] == ps[1..];
      assert ps[0] + [] == ps[0];
      assert Join(ps, sep) == ps[0] + ([sep] + u);
      assert ps == [ps[0]] + ps[1..];
    }
  }

  // ---------------------------------------------------------------------
  // Dictionaries built from pieces

  /** A key and its value. */
  type Entry = (string, string)

  /** Index of the first `c` in `s`; `|s|` when there is none. */
  function IndexOf(s: string, c: char): (i: nat)
    ensures i <= |s| && (i < |s| ==> s[i] == c)
    ensures forall k :: 0 <= k < i ==> s[k] != c
  {
    if s == [] then 0 else if s[0] == c then 0 else 1 + IndexOf(s[1..], c)
  }

  /**
   * The text before the first ':' of `strip(line)` and the text after it, each
   * passed through `strip` again; nothing when the stripped line is empty or
   * holds no ':'.
   */
  function SplitEntry(line: string, strip: string -> string): Option<Entry>
  {
    var s := strip(line);
    var i := IndexOf(s, ':');
    if s == [] || i == |s| then None
    else Some((strip(s[..i]), strip(s[i + 1..])))
  }

  /** One line of a fill message: both sides of its first ':', stripped. */
  function KvEntry(line: string): Option<Entry>
  {
    SplitEntry(line, Strip)
  }

  /**
   * One item of the spreadsheet-id list: the symbol before its first ':'
   * stripped and upper-cased, the id after it stripped; nothing when either
   * comes out empty.
   */
  function IdEntry(item: string): Option<Entry>
  {
    match KvEntry(item)
    case None => None
    case Some((symbol, id)) => if Upper(symbol) != [] && id != [] then Some((Upper(symbol), id)) else None
  }

  /** The dictionary a loop over `items` builds, a later key overwriting an earlier one. */
  function Collect(items: seq<string>, entry: string -> Option<Entry>): map<string, string>
  {
    if items == [] then map[]
    else
      var m := Collect(items[..|items| - 1], entry);
      match entry(items[|items| - 1])
      case Some(e) => m[e.0 := e.1]
      case None => m
  }

  /** `parse_kv_message` */
  function KvMessage(text: string): map<string, string>
  {
    Collect(Split(text, IsLineBreak), KvEntry)
  }

  /** `parse_spreadsheet_id_map` */
  function SpreadsheetIdMap(raw: string): map<string, string>
  {
    Collect(Split(raw, IsComma), IdEntry)
  }

  /** The loop both parsers run: one dictionary assignment per item that gives an entry. */
  method CollectEntries(items: seq<string>, entry: string -> Option<Entry>) returns (out: map<string, string>)
    ensures out == Collect(items, entry)
  {
    out := map[];
    var i := 0;
    while i < |items|
      invariant 0 <= i <= |items|
      invariant out == Collect(items[..i], entry)
    {
      assert items[..i + 1][..i] == items[..i];
      var e := entry(items[i]);
      if e.Some? {
        out := out[e.value.0 := e.value.1];
      }
      i := i + 1;
    }
    assert items[..i] == items;
  }

  method ParseKvMessage(text: string) returns (out: map<string, string>)
    ensures out == KvMessage(text)
  {
    out := CollectEntries(Split(text, IsLineBreak), KvEntry);
  }

  method ParseSpreadsheetIdMap(raw: string) returns (out: map<string, string>)
    ensures out == SpreadsheetIdMap(raw)
  {
    out := CollectEntries(Split(raw, IsComma), IdEntry);
  }

  /** Item `i` gives the entry for key `k`. */
  predicate Defines(items: seq<string>, entry: string -> Option<Entry>, i: int, k: string)
  {
    0 <= i < |items| && entry(items[i]).Some? && entry(items[i]).value.0 == k
  }

  /**
   * A key is in the dictionary exactly when some item defines it, and its
   * value is the one the last such item gives.
   */
  lemma {:induction false} CollectLookup(items: seq<string>, entry: string -> Option<Entry>, k: string)
    ensures k in Collect(items, entry) <==> exists i :: Defines(items, entry, i, k)
    ensures k in Collect(items, entry) ==>
      exists i :: Defines(items, entry, i, k) && entry(items[i]).value.1 == Collect(items, entry)[k]
                  && forall j :: i < j < |items| ==> !Defines(items, entry, j, k)
  {
    CollectHas(items, entry, k);
    if k in Collect(items, entry) {
      CollectLast(items, entry, k);
    }
  }

  lemma {:induction false} CollectHas(items: seq<string>, entry: string -> Option<Entry>, k: string)
    ensures k in Collect(items, entry) <==> exists i :: Defines(items, entry, i, k)
  {
    if items != [] {
      var n := |items| - 1;
      var init := items[..n];
      CollectHas(init, entry, k);
      forall i | 0 <= i < n ensures Defines(items, entry, i, k) <==> Defines(init, entry, i, k) {
        assert items[i] == init[i];
      }
      var m := Collect(init, entry);
      assert Collect(items, entry) == match entry(items[n]) case Some(e) => m[e.0 := e.1] case None => m;
      if !Defines(items, entry, n, k) {
        assert k in Collect(items, entry) <==> k in m;
        assert (exists i :: Defines(items, entry, i, k)) <==> (exists i :: Defines(init, entry, i, k));
      }
    }
  }

  lemma {:induction false} CollectLast(items: seq<string>, entry: string -> Option<Entry>, k: string)
    requires k in Collect(items, entry)
    ensures exists i :: Defines(items, entry, i, k) && entry(items[i]).value.1 == Collect(items, entry)[k]
                        && forall j :: i < j < |items| ==> !Defines(items, entry, j, k)
  {
    var n := |items| - 1;
    var init := items[..n];
    if Defines(items, entry, n, k) {
      assert Collect(items, entry)[k] == entry(items[n]).value.1;
    } else {
      var m := Collect(init, entry);
      assert Collect(items, entry) == match entry(items[n]) case Some(e) => m[e.0 := e.1] case None => m;
      assert k in m && m[k] == Collect(items, entry)[k];
      CollectLast(init, entry, k);
      var i :| Defines(init, entry, i, k) && entry(init[i]).value.1 == Collect(init, entry)[k]
               && forall j :: i < j < |init| ==> !Defines(init, entry, j, k);
      assert items[i] == init[i];
      forall j | i < j < |items| ensures !Defines(items, entry, j, k) {
        if j < n { assert items[j] == init[j]; } else { assert j == n; }
      }
    }
  }

  /** Every key and value of the dictionary is an entry some item gives. */
  lemma CollectFrom(items: seq<string>, entry: string -> Option<Entry>, k: string)
    requires k in Collect(items, entry)
    ensures exists i :: 0 <= i < |items| && entry(items[i]) == Some((k, Collect(items, entry)[k]))
  {
    CollectLookup(items, entry, k);
  }

  /** What the entry lemmas use of `strip()`: its result is trimmed and keeps every ':'. */
  ghost predicate Stripper(strip: string -> string)
  {
    forall s :: Trimmed(strip(s)) && (':' in strip(s) <==> ':' in s)
  }

  lemma StripColon(s: string)
    ensures Trimmed(Strip(s)) && (':' in Strip(s) <==> ':' in s)
  {
    StripIsSlice(s);
    InStrip(s, ':');
  }

  lemma StripIsStripper()
    ensures Stripper(Strip)
  {
    forall s ensures Trimmed(Strip(s)) && (':' in Strip(s) <==> ':' in s) {
      StripColon(s);
    }
  }

  lemma SplitEntrySpec(line: string, strip: string -> string)
    requires Stripper(strip)
    ensures SplitEntry(line, strip).None? <==> ':' !in line
    ensures SplitEntry(line, strip).Some? ==>
      var (k, v) := SplitEntry(line, strip).value;
      Trimmed(k) && Trimmed(v) && ':' !in k
  {
    var s := strip(line);
    assert ':' in s <==> ':' in line;
    var i := IndexOf(s, ':');
    if ':' in s {
      var m :| 0 <= m < |s| && s[m] == ':';
      assert i <= m;
    }
    if i < |s| {
      assert ':' !in s[..i];
      assert ':' in strip(s[..i]) <==> ':' in s[..i];
    }
  }

  /** A line gives an entry exactly when it holds ':'; the key and value come stripped, the key free of ':'. */
  lemma KvEntrySpec(line: string)
    ensures KvEntry(line).None? <==> ':' !in line
    ensures KvEntry(line).Some? ==>
      var (k, v) := KvEntry(line).value;
      Trimmed(k) && Trimmed(v) && ':' !in k
  {
    StripIsStripper();
    SplitEntrySpec(line, Strip);
  }

  /** An item that gives an entry yields a non-empty upper-case symbol without ':' and a non-empty stripped id. */
  lemma IdEntrySpec(item: string)
    ensures IdEntry(item).Some? ==>
      var (symbol, id) := IdEntry(item).value;
      && symbol != [] && id != [] && Trimmed(id) && ':' !in symbol
      && forall k :: 0 <= k < |symbol| ==> !IsLowerAscii(symbol[k])
  {
    KvEntrySpec(item);
    if IdEntry(item).Some? {
      UpperColon(KvEntry(item).value.0);
    }
  }

  /** Upper-casing leaves no lower-case ASCII letter and keeps ':' where it was. */
  lemma UpperColon(k: string)
    ensures ':' in Upper(k) <==> ':' in k
    ensures forall m :: 0 <= m < |Upper(k)| ==> !IsLowerAscii(Upper(k)[m])
  {
    if ':' in Upper(k) {
      var m :| 0 <= m < |Upper(k)| && Upper(k)[m] == ':';
      assert k[m] == ':';
    }
    if ':' in k {
      var m :| 0 <= m < |k| && k[m] == ':';
      assert Upper(k)[m] == ':';
    }
  }

  /** Python's `dict(pairs)`: a later pair overwriting an earlier one with the same key. */
  function MapOf(pairs: seq<Entry>): map<string, string>
  {
    if pairs == [] then map[]
    else MapOf(pairs[..|pairs| - 1])[pairs[|pairs| - 1].0 := pairs[|pairs| - 1].1]
  }

  /** The pairs written out as `key:value` texts. */
  function Items(pairs: seq<Entry>): (items: seq<string>)
    ensures |items| == |pairs|
  {
    seq(|pairs|, i requires 0 <= i < |pairs| => pairs[i].0 + ":" + pairs[i].1)
  }

  /** Items that each give back their pair build the dictionary of the pairs. */
  lemma {:induction false} CollectPairs(items: seq<string>, pairs: seq<Entry>, entry: string -> Option<Entry>)
    requires |items| == |pairs|
    requires forall i :: 0 <= i < |items| ==> entry(items[i]) == Some(pairs[i])
    ensures Collect(items, entry) == MapOf(pairs)
  {
    if items != [] {
      var n := |items| - 1;
      CollectPairs(items[..n], pairs[..n], entry);
    }
  }

  /** Gluing two trimmed texts with ':' gives a trimmed text. */
  lemma GluedTrimmed(k: string, v: string)
    requires Trimmed(k) && Trimmed(v)
    ensures Trimmed(k + ":" + v)
  {
    var s := k + ":" + v;
    assert !IsSpace(':');
    assert s[0] == (if k == [] then ':' else k[0]);
    assert s[|s| - 1] == (if v == [] then ':' else v[|v| - 1]);
  }

  /** Gluing two texts free of separators with ':', itself no separator, keeps them free. */
  lemma GluedFree(k: string, v: string, isSep: char -> bool)
    requires Free(k, isSep) && Free(v, isSep) && !isSep(':')
    ensures Free(k + ":" + v, isSep)
  {
    var s := k + ":" + v;
    forall m | 0 <= m < |s| ensures !isSep(s[m]) {
      if m < |k| {
        assert s[m] == k[m];
      } else if m > |k| {
        assert s[m] == v[m - |k| - 1];
      }
    }
  }

  /** The first ':' of `k:v` is the glue when `k` holds none. */
  lemma IndexOfGlued(k: string, v: string)
    requires ':' !in k
    ensures IndexOf(k + ":" + v, ':') == |k|
    ensures (k + ":" + v)[..|k|] == k && (k + ":" + v)[|k| + 1..] == v
  {
    var s := k + ":" + v;
    assert s[|k|] == ':';
  }

  /** `k:v` splits back into `k` and `v` when `strip` leaves all three alone and `k` holds no ':'. */
  lemma SplitEntryOfItem(k: string, v: string, strip: string -> string)
    requires strip(k + ":" + v) == k + ":" + v && strip(k) == k && strip(v) == v && ':' !in k
    ensures SplitEntry(k + ":" + v, strip) == Some((k, v))
  {
    IndexOfGlued(k, v);
  }

  /** A line `k:v` with a trimmed key free of ':' and a trimmed value reads back as the pair. */
  lemma KvEntryOfItem(k: string, v: string)
    requires Trimmed(k) && Trimmed(v) && ':' !in k
    ensures KvEntry(k + ":" + v) == Some((k, v))
  {
    GluedTrimmed(k, v);
    StripFixed(k + ":" + v);
    StripFixed(k);
    StripFixed(v);
    SplitEntryOfItem(k, v, Strip);
  }

  /** A pair the message format can carry: stripped, on one line, the key free of ':'. */
  predicate KvPair(e: Entry)
  {
    Trimmed(e.0) && Trimmed(e.1) && ':' !in e.0
    && Free(e.0, IsLineBreak) && Free(e.1, IsLineBreak)
  }

  /** The line of a pair the message format can carry sits on one line and reads back as the pair. */
  lemma KvItem(e: Entry)
    requires KvPair(e)
    ensures Free(e.0 + ":" + e.1, IsLineBreak) && KvEntry(e.0 + ":" + e.1) == Some(e)
  {
    KvEntryOfItem(e.0, e.1);
    KvItemFree(e.0, e.1);
  }

  lemma KvItemFree(k: string, v: string)
    requires Free(k, IsLineBreak) && Free(v, IsLineBreak)
    ensures Free(k + ":" + v, IsLineBreak)
  {
    GluedFree(k, v, IsLineBreak);
  }

  /** A message written as one `key:value` line per pair parses back to the dictionary of the pairs. */
  lemma KvMessageRoundTrip(pairs: seq<Entry>)
    requires |pairs| >= 1
    requires forall i :: 0 <= i < |pairs| ==> KvPair(pairs[i])
    ensures KvMessage(Join(Items(pairs), '\n')) == MapOf(pairs)
  {
    var items := Items(pairs);
    forall i | 0 <= i < |items| ensures Free(items[i], IsLineBreak) && KvEntry(items[i]) == Some(pairs[i]) {
      assert items[i] == pairs[i].0 + ":" + pairs[i].1;
      KvItem(pairs[i]);
    }
    SplitOfJoin(items, IsLineBreak, '\n');
    CollectPairs(items, pairs, KvEntry);
  }

  /** A symbol and id the configuration format can carry. */
  predicate IdPair(e: Entry)
  {
    e.0 != [] && Trimmed(e.0) && Upper(e.0) == e.0 && ':' !in e.0 && ',' !in e.0
    && e.1 != [] && Trimmed(e.1) && ',' !in e.1
  }

  /** An item `SYMBOL:id` reads back as the pair. */
  lemma IdEntryOfItem(k: string, v: string)
    requires IdPair((k, v))
    ensures IdEntry(k + ":" + v) == Some((k, v))
  {
    KvEntryOfItem(k, v);
  }

  /** The item of a pair the configuration format can carry holds no comma and reads back as the pair. */
  lemma IdItem(e: Entry)
    requires IdPair(e)
    ensures Free(e.0 + ":" + e.1, IsComma) && IdEntry(e.0 + ":" + e.1) == Some(e)
  {
    IdEntryOfItem(e.0, e.1);
    assert Free(e.0, IsComma) && Free(e.1, IsComma);
    GluedFree(e.0, e.1, IsComma);
  }

  /** A configuration written as comma-separated `SYMBOL:id` items parses back to the dictionary of the pairs. */
  lemma SpreadsheetIdMapRoundTrip(pairs: seq<Entry>)
    requires |pairs| >= 1
    requires forall i :: 0 <= i < |pairs| ==> IdPair(pairs[i])
    ensures SpreadsheetIdMap(Join(Items(pairs), ',')) == MapOf(pairs)
  {
    var items := Items(pairs);
    forall i | 0 <= i < |items| ensures Free(items[i], IsComma) && IdEntry(items[i]) == Some(pairs[i]) {
      assert items[i] == pairs[i].0 + ":" + pairs[i].1;
      IdItem(pairs[i]);
    }
    SplitOfJoin(items, IsComma, ',');
    CollectPairs(items, pairs, IdEntry);
  }

  /** Every symbol of the parsed configuration is non-empty and upper-case, and every id non-empty and stripped. */
  lemma SpreadsheetIdMapSpec(raw: string, symbol: string)
    requires symbol in SpreadsheetIdMap(raw)
    ensures symbol != [] && ':' !in symbol && forall k :: 0 <= k < |symbol| ==> !IsLowerAscii(symbol[k])
    ensures SpreadsheetIdMap(raw)[symbol] != [] && Trimmed(SpreadsheetIdMap(raw)[symbol])
  {
    var items := Split(raw, IsComma);
    CollectFrom(items, IdEntry, symbol);
    var i :| 0 <= i < |items| && IdEntry(items[i]) == Some((symbol, SpreadsheetIdMap(raw)[symbol]));
    IdEntrySpec(items[i]);
  }

  /** Every key and value of a parsed message is stripped, and no key holds ':'. */
  lemma KvMessageSpec(text: string, key: string)
    requires key in KvMessage(text)
    ensures Trimmed(key) && ':' !in key
    ensures Trimmed(KvMessage(text)[key])
  {
    var items := Split(text, IsLineBreak);
    CollectFrom(items, KvEntry, key);
    var i :| 0 <= i < |items| && KvEntry(items[i]) == Some((key, KvMessage(text)[key]));
    KvEntrySpec(items[i]);
  }

  // ---------------------------------------------------------------------
  // parse_symbol

  const SymbolNotFound := "symbol not found in stock name"

  /** Index of the first ')' at or after `i`; `|s|` when there is none. */
  function CloseFrom(s: string, i: nat): (j: nat)
    requires i <= |s|
    ensures i <= j <= |s| && (j < |s| ==> s[j] == ')')
    ensures forall k :: i <= k < j ==> s[k] != ')'
    decreases |s| - i
  {
    if i == |s| || s[i] == ')' then i else CloseFrom(s, i + 1)
  }

  /**
   * `\(([^)]+)\)` matches at `i`: an opening bracket, then at least one
   * character before the first closing bracket after it.
   */
  predicate BracketAt(s: string, i: nat)
  {
    i < |s| && s[i] == '(' && i + 1 < CloseFrom(s, i + 1) < |s|
  }

  /** The text between the brackets of a match. */
  function Group(s: string, i: nat): string
    requires BracketAt(s, i)
  {
    s[i + 1..CloseFrom(s, i + 1)]
  }

  /** What `parse_symbol` makes of a group: `group.strip().upper()`. */
  function NormSymbol(group: string): string
  {
    Upper(Strip(group))
  }

  /** The leftmost match from `i` on, its group passed through `norm`. */
  function SymbolFrom(s: string, i: nat, norm: string -> string): Result<string>
    requires i <= |s|
    decreases |s| - i
  {
    if i == |s| then Err(SymbolNotFound)
    else if BracketAt(s, i) then Ok(norm(Group(s, i)))
    else SymbolFrom(s, i + 1, norm)
  }

  /** `parse_symbol` */
  function ParseSymbol(name: string): Result<string>
  {
    SymbolFrom(name, 0, NormSymbol)
  }

  /** The match condition stated without the scan: '(' at `i`, a later ')' and only non-')' characters between, at least one. */
  lemma BracketAtIff(s: string, i: nat)
    ensures BracketAt(s, i) <==>
      i < |s| && s[i] == '(' &&
      exists j :: i + 1 < j < |s| && s[j] == ')' && forall k :: i < k < j ==> s[k] != ')'
  {
    if i < |s| && s[i] == '(' && exists j :: i + 1 < j < |s| && s[j] == ')' && forall k :: i < k < j ==> s[k] != ')' {
      var j :| i + 1 < j < |s| && s[j] == ')' && forall k :: i < k < j ==> s[k] != ')';
      var c := CloseFrom(s, i + 1);
      assert c <= j;
      assert c != i + 1;
    }
    if BracketAt(s, i) {
      var j := CloseFrom(s, i + 1);
      assert i + 1 < j < |s| && s[j] == ')' && forall k :: i < k < j ==> s[k] != ')';
    }
  }

  /** `m` is the leftmost position at or after `i` where the pattern matches. */
  predicate LeftmostMatch(s: string, i: nat, m: nat)
  {
    i <= m < |s| && BracketAt(s, m) && forall k :: i <= k < m ==> !BracketAt(s, k)
  }

  /** The scan from `i` finds a symbol exactly when the pattern matches at or after `i`. */
  lemma {:induction false} SymbolFromFound(s: string, i: nat, norm: string -> string)
    requires i <= |s|
    ensures SymbolFrom(s, i, norm).Ok? <==> exists m :: i <= m < |s| && BracketAt(s, m)
    decreases |s| - i
  {
    if i < |s| && !BracketAt(s, i) {
      SymbolFromFound(s, i + 1, norm);
      assert SymbolFrom(s, i, norm) == SymbolFrom(s, i + 1, norm);
    }
  }

  /** A symbol the scan from `i` finds is the group of the leftmost match, passed through `norm`. */
  lemma {:induction false} SymbolFromLeftmost(s: string, i: nat, norm: string -> string)
    requires i <= |s| && SymbolFrom(s, i, norm).Ok?
    ensures exists m :: LeftmostMatch(s, i, m) && SymbolFrom(s, i, norm).value == norm(Group(s, m))
    decreases |s| - i
  {
    if !BracketAt(s, i) {
      assert SymbolFrom(s, i, norm) == SymbolFrom(s, i + 1, norm);
      SymbolFromLeftmost(s, i + 1, norm);
      var m :| LeftmostMatch(s, i + 1, m) && SymbolFrom(s, i + 1, norm).value == norm(Group(s, m));
      assert LeftmostMatch(s, i, m);
    } else {
      assert LeftmostMatch(s, i, i);
    }
  }

  /**
   * The symbol is found exactly when the pattern matches somewhere, and it is
   * the group of the leftmost match, passed through `norm`.
   */
  lemma SymbolFromSpec(s: string, i: nat, norm: string -> string)
    requires i <= |s|
    ensures SymbolFrom(s, i, norm).Ok? <==> exists m :: i <= m < |s| && BracketAt(s, m)
    ensures SymbolFrom(s, i, norm).Ok? ==>
      exists m :: LeftmostMatch(s, i, m) && SymbolFrom(s, i, norm).value == norm(Group(s, m))
  {
    SymbolFromFound(s, i, norm);
    if SymbolFrom(s, i, norm).Ok? {
      SymbolFromLeftmost(s, i, norm);
    }
  }

  lemma ParseSymbolSpec(name: string)
    ensures ParseSymbol(name).Ok? <==> exists m :: 0 <= m < |name| && BracketAt(name, m)
    ensures ParseSymbol(name).Ok? ==>
      exists m :: 0 <= m < |name| && BracketAt(name, m) && (forall k :: 0 <= k < m ==> !BracketAt(name, k))
                  && ParseSymbol(name).value == Upper(Strip(Group(name, m)))
    ensures ParseSymbol(name).Err? ==> ParseSymbol(name).msg == SymbolNotFound
  {
    SymbolFromSpec(name, 0, NormSymbol);
    SymbolErr(name, 0, NormSymbol);
  }

  lemma {:induction false} SymbolErr(s: string, i: nat, norm: string -> string)
    requires i <= |s|
    ensures SymbolFrom(s, i, norm).Err? ==> SymbolFrom(s, i, norm).msg == SymbolNotFound
    decreases |s| - i
  {
    if i < |s| && !BracketAt(s, i) {
      SymbolErr(s, i + 1, norm);
    }
  }

  /** Skipping positions where the pattern does not match leaves the scan's result unchanged. */
  lemma {:induction false} SymbolFromSkip(s: string, i: nat, j: nat, norm: string -> string)
    requires i <= j <= |s|
    requires forall k :: i <= k < j ==> !BracketAt(s, k)
    ensures SymbolFrom(s, i, norm) == SymbolFrom(s, j, norm)
    decreases j - i
  {
    if i < j {
      SymbolFromSkip(s, i + 1, j, norm);
    }
  }

  /** In `p(sym)q` with `sym` non-empty and free of ')', the pattern matches at the '(' with `sym` as its group. */
  lemma BracketedGroup(p: string, sym: string, q: string)
    requires sym != [] && ')' !in sym
    ensures BracketAt(p + "(" + sym + ")" + q, |p|) && Group(p + "(" + sym + ")" + q, |p|) == sym
  {
    var s := p + "(" + sym + ")" + q;
    var i := |p|;
    var j := i + 1 + |sym|;
    assert s[i] == '(' && s[j] == ')';
    forall k | i < k < j ensures s[k] != ')' {
      assert s[k] == sym[k - i - 1];
    }
    BracketAtIff(s, i);
    assert CloseFrom(s, i + 1) == j;
    assert s[i + 1..j] == sym;
  }

  /**
   * A name with no '(' before a bracketed, non-empty, ')'-free symbol yields
   * that symbol stripped and upper-cased, whatever follows it.
   */
  lemma ParseSymbolOfBracketed(p: string, sym: string, q: string)
    requires '(' !in p && sym != [] && ')' !in sym
    ensures ParseSymbol(p + "(" + sym + ")" + q) == Ok(Upper(Strip(sym)))
  {
    var s := p + "(" + sym + ")" + q;
    forall k | 0 <= k < |p| ensures !BracketAt(s, k) {
      assert s[k] == p[k];
    }
    SymbolFromSkip(s, 0, |p|, NormSymbol);
    BracketedGroup(p, sym, q);
  }

  // ---------------------------------------------------------------------
  // parse_float

  const NumberNotFound := "number not found"

  /** `text.replace(",", "")` */
  function DropCommas(s: string): (r: string)
    ensures Free(r, IsComma)
  {
    if s == [] then []
    else if s[0] == ',' then DropCommas(s[1..])
    else [s[0]] + DropCommas(s[1..])
  }

  predicate NoDigit(s: string) { forall k :: 0 <= k < |s| ==> !IsDigit(s[k]) }

  lemma {:induction false} DropCommasDigits(s: string)
    ensures NoDigit(DropCommas(s)) <==> NoDigit(s)
  {
    if s != [] {
      DropCommasDigits(s[1..]);
      assert NoDigit(s) <==> !IsDigit(s[0]) && NoDigit(s[1..]) by {
        assert forall k :: 1 <= k < |s| ==> s[k] == s[1..][k - 1];
      }
      if s[0] != ',' {
        NoDigitCons(s[0], DropCommas(s[1..]));
      }
    }
  }

  lemma NoDigitCons(c: char, t: string)
    ensures NoDigit([c] + t) <==> !IsDigit(c) && NoDigit(t)
  {
    var r := [c] + t;
    assert r[0] == c;
    if !IsDigit(c) && NoDigit(t) {
      forall k | 0 <= k < |r| ensures !IsDigit(r[k]) {
        if k > 0 {
          assert r[k] == t[k - 1];
        }
      }
    }
    if NoDigit(r) {
      forall k | 0 <= k < |t| ensures !IsDigit(t[k]) {
        assert t[k] == r[k + 1];
      }
    }
  }

  lemma {:induction false} DropCommasTwice(s: string)
    ensures DropCommas(DropCommas(s)) == DropCommas(s)
  {
    if s != [] {
      DropCommasTwice(s[1..]);
      if s[0] != ',' {
        assert ([s[0]] + DropCommas(s[1..]))[1..] == DropCommas(s[1..]);
      }
    }
  }

  predicate IsSign(c: char) { c == '-' || c == '+' }

  /** `[-+]?\d+(?:\.\d+)?` matches at `i`: a digit there, or a sign followed by a digit. */
  predicate NumberAt(t: string, i: nat)
  {
    i < |t| && (IsDigit(t[i]) || (IsSign(t[i]) && i + 1 < |t| && IsDigit(t[i + 1])))
  }

  /**
   * The value of the unsigned part from the digit at `i`: the longest digit
   * run, then a '.' and the longest digit run after it when a digit follows
   * the '.'.
   */
  function UnsignedAt(t: string, i: nat): real
    requires i < |t| && IsDigit(t[i])
  {
    var j := DigitRunEnd(t, i);
    var whole := DigitsValue(t[i..j]) as real;
    if j + 1 < |t| && t[j] == '.' && IsDigit(t[j + 1]) then
      var k := DigitRunEnd(t, j + 1);
      whole + DigitsValue(t[j + 1..k]) as real / Pow10(k - j - 1) as real
    else whole
  }

  /** The value `float` gives the text matched at `i`. */
  function ValueAt(t: string, i: nat): real
    requires NumberAt(t, i)
  {
    if IsDigit(t[i]) then UnsignedAt(t, i)
    else if t[i] == '-' then -UnsignedAt(t, i + 1)
    else UnsignedAt(t, i + 1)
  }

  /** The value of the leftmost match from `i` on. */
  function NumberFrom(t: string, i: nat): Option<real>
    requires i <= |t|
    decreases |t| - i
  {
    if i == |t| then None
    else if NumberAt(t, i) then Some(ValueAt(t, i))
    else NumberFrom(t, i + 1)
  }

  /** `parse_float` */
  function ParseFloat(text: string): Result<real>
  {
    match NumberFrom(DropCommas(text), 0)
    case Some(v) => Ok(v)
    case None => Err(NumberNotFound)
  }

  /** The scan finds a number exactly when a digit follows `i`, and the one it finds is the leftmost match. */
  lemma {:induction false} NumberFromSpec(t: string, i: nat)
    requires i <= |t|
    ensures NumberFrom(t, i).None? <==> NoDigit(t[i..])
    ensures NumberFrom(t, i).Some? ==>
      exists m :: i <= m < |t| && NumberAt(t, m) && (forall k :: i <= k < m ==> !NumberAt(t, k))
                  && NumberFrom(t, i).value == ValueAt(t, m)
    decreases |t| - i
  {
    if i < |t| {
      NumberFromSpec(t, i + 1);
      assert forall k :: 1 <= k < |t[i..]| ==> t[i..][k] == t[i + 1..][k - 1];
      assert t[i..][0] == t[i];
      if NumberAt(t, i) {
        if !IsDigit(t[i]) {
          assert t[i..][1] == t[i + 1];
        }
      } else if NumberFrom(t, i).Some? {
        var m :| i + 1 <= m < |t| && NumberAt(t, m) && (forall k :: i + 1 <= k < m ==> !NumberAt(t, k))
                 && NumberFrom(t, i).value == ValueAt(t, m);
        assert forall k :: i <= k < m ==> !NumberAt(t, k);
      }
    }
  }

  /** `parse_float` fails exactly when the text holds no decimal digit. */
  lemma ParseFloatFails(text: string)
    ensures ParseFloat(text).Err? <==> NoDigit(text)
  {
    NumberFromSpec(DropCommas(text), 0);
    assert DropCommas(text)[0..] == DropCommas(text);
    DropCommasDigits(text);
  }

  /** Commas are ignored: dropping them first changes nothing. */
  lemma ParseFloatIgnoresCommas(text: string)
    ensures ParseFloat(DropCommas(text)) == ParseFloat(text)
  {
    DropCommasTwice(text);
  }

  /** A digit string followed by a character that is not a digit, or by nothing, reads as its value. */
  lemma UnsignedOfDigits(t: string, i: nat, n: nat)
    requires i + |DecimalText(n)| <= |t| && t[i..i + |DecimalText(n)|] == DecimalText(n)
    requires i + |DecimalText(n)| == |t| || (!IsDigit(t[i + |DecimalText(n)|]) && t[i + |DecimalText(n)|] != '.')
    ensures IsDigit(t[i]) && UnsignedAt(t, i) == n as real
  {
    var d := DecimalText(n);
    var j := i + |d|;
    assert t[i] == d[0];
    DigitRunEndAt(t, i, j);
    DecimalTextValue(n);
  }

  /** `str(n)` of a natural number reads back as that number. */
  lemma ParseFloatOfNatural(n: nat)
    ensures ParseFloat(DecimalText(n)) == Ok(n as real)
  {
    var d := DecimalText(n);
    DropCommasFree(d);
    UnsignedOfDigits(d, 0, n);
    assert d[0..|d|] == d;
  }

  /** A minus sign in front of `str(n)` reads back as the negative number. */
  lemma ParseFloatOfNegative(n: nat)
    ensures ParseFloat("-" + DecimalText(n)) == Ok(-(n as real))
  {
    var d := DecimalText(n);
    var t := "-" + d;
    DropCommasFree(t);
    assert t[1..1 + |d|] == d;
    UnsignedOfDigits(t, 1, n);
    assert NumberAt(t, 0);
  }

  /** A text without commas is kept as it is. */
  lemma {:induction false} DropCommasFree(s: string)
    requires ',' !in s
    ensures DropCommas(s) == s
  {
    if s != [] {
      assert ',' !in s[1..];
      DropCommasFree(s[1..]);
      assert s == [s[0]] + s[1..];
    }
  }

  // ---------------------------------------------------------------------
  // get_numeric_cell_value

  /** A cell as read with its computed value: a number, a truth value, text, or anything else. */
  datatype CellValue = NumberCell(n: real) | BoolCell(b: bool) | TextCell(s: string) | OtherCell

  const FormulaText := "value came back as formula text"
  const NotNumeric := "value is not numeric"

  /**
   * A number is taken as is (a truth value as 1 or 0, as Python's `float`
   * does); text whose stripped form starts with '=' is refused as a formula;
   * other text goes through `parse_float`.
   */
  function NumericCellValue(raw: CellValue): Result<real>
  {
    match raw
    case NumberCell(n) => Ok(n)
    case BoolCell(b) => Ok(if b then 1.0 else 0.0)
    case TextCell(t) =>
      var s := Strip(t);
      if s != [] && s[0] == '=' then Err(FormulaText) else ParseFloat(s)
    case OtherCell => Err(NotNumeric)
  }

  /**
   * Text is refused exactly when, once stripped, it is a formula or holds no
   * digit; a formula is refused even when it holds digits.
   */
  lemma NumericCellSpec(raw: CellValue)
    ensures raw.NumberCell? ==> NumericCellValue(raw) == Ok(raw.n)
    ensures raw.OtherCell? ==> NumericCellValue(raw).Err?
    ensures raw.TextCell? ==>
      var s := Strip(raw.s);
      && (NumericCellValue(raw).Err? <==> (s != [] && s[0] == '=') || NoDigit(s))
      && (s != [] && s[0] == '=' ==> NumericCellValue(raw) == Err(FormulaText))
      && (NumericCellValue(raw).Ok? ==> NumericCellValue(raw) == ParseFloat(s))
  {
    if raw.TextCell? {
      ParseFloatFails(Strip(raw.s));
    }
  }
}
