/**
 * The sidebar's path helpers: the file name shown for the loaded dump, the
 * name offered when saving an updated copy, and the section title picked
 * from the navigation entries by route prefix.
 */
module MainLayout {
  import opened Wrappers

  /** A path separator: `/` or `\`. */
  predicate IsSeparator(c: char)
  {
    c == '/' || c == '\\'
  }

  /** `s.lastIndexOf(c)`: the last index holding `c`, or -1. */
  function LastIndexOf(s: string, c: char): (i: int)
    ensures -1 <= i < |s|
    ensures i >= 0 ==> s[i] == c
    ensures forall j | i < j < |s| :: s[j] != c
  {
    if s == [] then -1
    else if s[|s| - 1] == c then |s| - 1
    else LastIndexOf(s[..|s| - 1], c)
  }

  /** `Math.max(lastIndexOf("/"), lastIndexOf("\\"))`: the last separator, or -1. */
  function LastSeparator(s: string): (i: int)
    ensures -1 <= i < |s|
    ensures i >= 0 ==> IsSeparator(s[i])
    ensures forall j | i < j < |s| :: !IsSeparator(s[j])
  {
    var slash := LastIndexOf(s, '/');
    var backslash := LastIndexOf(s, '\\');
    if slash < backslash then backslash else slash
  }

  /** The text after the last separator (`slice(lastSlash + 1)`, the whole path when there is none). */
  function LastSegment(s: string): string
  {
    s[LastSeparator(s) + 1..]
  }

  /**
   * `name` is the last segment of `s`: a suffix of it with no separator,
   * preceded in `s` by a separator or by nothing.
   */
  predicate IsLastSegment(s: string, name: string)
  {
    && |name| <= |s| && s[|s| - |name|..] == name
    && (forall j | 0 <= j < |name| :: !IsSeparator(name[j]))
    && (|name| < |s| ==> IsSeparator(s[|s| - |name| - 1]))
  }

  /** `LastSegment` is the last segment, and it is the only string that is. */
  lemma LastSegmentSpec(s: string, name: string)
    ensures IsLastSegment(s, LastSegment(s))
    ensures IsLastSegment(s, name) ==> name == LastSegment(s)
  {
    var i := LastSeparator(s);
  }

  // -------------------------------------------------------------------
  // `path.split(/[/\\]/).pop() ?? path`

  /** `s.split(/[/\\]/)`: the pieces between separators, always at least one. */
  function SplitPath(s: string): (parts: seq<string>)
    ensures |parts| >= 1
    ensures forall k, j | 0 <= k < |parts| && 0 <= j < |parts[k]| :: !IsSeparator(parts[k][j])
  {
    if s == [] then [""]
    else
      var rest := SplitPath(s[..|s| - 1]);
      var c := s[|s| - 1];
      if IsSeparator(c) then rest + [""]
      else rest[..|rest| - 1] + [rest[|rest| - 1] + [c]]
  }

  /** Appending a character that is not a separator extends the last segment; a separator empties it. */
  lemma LastSegmentSnoc(init: string, c: char)
    ensures IsSeparator(c) ==> LastSegment(init + [c]) == []
    ensures !IsSeparator(c) ==> LastSegment(init + [c]) == LastSegment(init) + [c]
  {
    var s := init + [c];
    assert s[..|s| - 1] == init;
    if !IsSeparator(c) {
      assert LastSeparator(s) == LastSeparator(init);
      assert s[LastSeparator(s) + 1..] == init[LastSeparator(init) + 1..] + [c];
    }
  }

  /** The last piece of the split is the last segment. */
  lemma {:induction false} SplitPathLast(s: string)
    ensures var parts := SplitPath(s); parts[|parts| - 1] == LastSegment(s)
  {
    if s == [] {
      assert LastSeparator(s) == -1;
      assert SplitPath(s) == [""];
    } else {
      var init, c := s[..|s| - 1], s[|s| - 1];
      var rest := SplitPath(init);
      SplitPathLast(init);
      LastSegmentSnoc(init, c);
      assert s == init + [c];
      if IsSeparator(c) {
        assert SplitPath(s) == rest + [""];
      } else {
        assert SplitPath(s) == rest[..|rest| - 1] + [rest[|rest| - 1] + [c]];
        assert SplitPath(s)[|SplitPath(s)| - 1] == LastSegment(init) + [c];
      }
    }
  }

  /** The displayed file name: none without a path, otherwise its last segment. */
  function FileName(path: Option<string>): Option<string>
  {
    if path.None? || path.value == "" then None
    else
      var parts := SplitPath(path.value);
      Some(parts[|parts| - 1])
  }

  /** The displayed name is the last segment of the path, so it holds no separator. */
  lemma FileNameSpec(path: Option<string>)
    ensures (path.None? || path.value == "") <==> FileName(path).None?
    ensures FileName(path).Some? ==> FileName(path).value == LastSegment(path.value)
    ensures FileName(path).Some? ==> IsLastSegment(path.value, FileName(path).value)
  {
    if FileName(path).Some? {
      SplitPathLast(path.value);
      LastSegmentSpec(path.value, "");
    }
  }

  // -------------------------------------------------------------------
  // `getUpdatedSaveName`

  const DEFAULT_SAVE_NAME: string := "fiscal-memory_updated.bin"
  const UPDATED_SUFFIX: string := "_updated"

  /**
   * Where `_updated` goes in a name: before its last dot, unless there is no
   * dot or the only one leads the name, in which case at the end.
   */
  function StemEnd(name: string): (k: nat)
    ensures k <= |name|
    ensures k < |name| ==> 0 < k && name[k] == '.' && forall j | k < j < |name| :: name[j] != '.'
    ensures k == |name| ==> forall j | 0 < j < |name| :: name[j] != '.'
  {
    var dot := LastIndexOf(name, '.');
    if dot > 0 then dot else |name|
  }

  /** `name` with `_updated` inserted at `k`. */
  function InsertSuffix(name: string, k: nat): (r: string)
    requires k <= |name|
    ensures |r| == |name| + |UPDATED_SUFFIX|
    ensures r[..k] + r[k + |UPDATED_SUFFIX|..] == name
  {
    assert (name[..k] + UPDATED_SUFFIX + name[k..])[k + |UPDATED_SUFFIX|..] == name[k..];
    name[..k] + UPDATED_SUFFIX + name[k..]
  }

  /** Inserting `_updated` into a name without separators adds none. */
  lemma InsertKeepsNoSeparator(name: string, k: nat, r: string)
    requires k <= |name| && forall j | 0 <= j < |name| :: !IsSeparator(name[j])
    requires r == InsertSuffix(name, k)
    ensures forall j | 0 <= j < |r| :: !IsSeparator(r[j])
  {
    forall j | 0 <= j < |r|
      ensures !IsSeparator(r[j])
    {
      if j < k {
        assert r[j] == name[j];
      } else if j < k + |UPDATED_SUFFIX| {
        assert r[j] == UPDATED_SUFFIX[j - k];
      } else {
        assert r[j] == name[j - |UPDATED_SUFFIX|];
      }
    }
  }

  /** The name offered for saving an updated copy of the dump at `currentPath`. */
  function UpdatedSaveName(currentPath: Option<string>): string
  {
    if currentPath.None? || currentPath.value == "" then DEFAULT_SAVE_NAME
    else
      var name := LastSegment(currentPath.value);
      var dot := LastIndexOf(name, '.');
      if dot > 0 then name[..dot] + UPDATED_SUFFIX + name[dot..]
      else name + UPDATED_SUFFIX
  }

  /**
   * Without a path the default name is offered. Otherwise the offer is the
   * path's last segment with `_updated` inserted where `StemEnd` says, so
   * it holds no separator.
   */
  lemma UpdatedSaveNameSpec(currentPath: Option<string>)
    ensures currentPath.None? || currentPath.value == "" ==> UpdatedSaveName(currentPath) == DEFAULT_SAVE_NAME
    ensures currentPath.Some? && currentPath.value != "" ==>
      UpdatedSaveName(currentPath) == InsertSuffix(LastSegment(currentPath.value), StemEnd(LastSegment(currentPath.value)))
    ensures forall j | 0 <= j < |UpdatedSaveName(currentPath)| :: !IsSeparator(UpdatedSaveName(currentPath)[j])
  {
    if currentPath.Some? && currentPath.value != "" {
      var name := LastSegment(currentPath.value);
      var k := StemEnd(name);
      assert UpdatedSaveName(currentPath) == InsertSuffix(name, k) by {
        assert k == |name| ==> name[..k] == name && name[k..] == [];
      }
      assert forall j | 0 <= j < |name| :: !IsSeparator(name[j]) by {
        LastSegmentSpec(currentPath.value, name);
      }
      InsertKeepsNoSeparator(name, k, UpdatedSaveName(currentPath));
    }
  }

  // -------------------------------------------------------------------
  // `getSectionLabel`

  /** A sidebar entry: its route and its label (the icon is left out). */
  datatype NavItem = NavItem(route: string, title: string)

  const NAV_ITEMS: seq<NavItem> := [
    NavItem("/fiscal-mode-start", "Фіскальний режим"),
    NavItem("/serial", "Серійний номер"),
    NavItem("/fm-numbers", "Номери ФМ"),
    NavItem("/vat-rates", "Ставки ПДВ"),
    NavItem("/ram-resets", "Скидання RAM"),
    NavItem("/tax-records", "Податкові записи"),
    NavItem("/z-reports", "Z-звіти"),
    NavItem("/logs", "Логи перевірки")
  ]

  const FALLBACK_LABEL: string := "Додаток"

  /** `items.find(item => path.startsWith(item.to))`, scanning from index `from`. */
  function FindByPrefix(items: seq<NavItem>, path: string, from: nat): (found: Option<nat>)
    requires from <= |items|
    ensures found.Some? ==> from <= found.value < |items| && items[found.value].route <= path
    ensures found.Some? ==> forall j | from <= j < found.value :: !(items[j].route <= path)
    ensures found.None? ==> forall j | from <= j < |items| :: !(items[j].route <= path)
    decreases |items| - from
  {
    if from == |items| then None
    else if items[from].route <= path then Some(from)
    else FindByPrefix(items, path, from + 1)
  }

  /** The page title for the current route. */
  function SectionLabel(path: string): string
  {
    var found := FindByPrefix(NAV_ITEMS, path, 0);
    if found.Some? then NAV_ITEMS[found.value].title else FALLBACK_LABEL
  }

  /** Two strings that differ at an index both have are not prefixes of each other. */
  lemma DifferAt(a: string, b: string, k: nat)
    requires k < |a| && k < |b| && a[k] != b[k]
    ensures !(a <= b) && !(b <= a)
  {
  }

  /** No route starts another: they differ at index 1, or at index 2 for the two `/f…` routes. */
  lemma RoutesPrefixFree(i: nat, j: nat)
    requires i < |NAV_ITEMS| && j < |NAV_ITEMS| && i != j
    ensures !(NAV_ITEMS[i].route <= NAV_ITEMS[j].route)
  {
    var a, b := NAV_ITEMS[i].route, NAV_ITEMS[j].route;
    assert |a| >= 3 && |b| >= 3;
    if a[1] != b[1] {
      DifferAt(a, b, 1);
    } else {
      DifferAt(a, b, 2);
    }
  }

  /**
   * Since no route starts another, at most one route starts a path: the
   * title of a path below a route is that route's title, whatever the
   * order of the entries.
   */
  lemma SectionLabelOfRoute(path: string, i: nat)
    requires i < |NAV_ITEMS| && NAV_ITEMS[i].route <= path
    ensures SectionLabel(path) == NAV_ITEMS[i].title
  {
    var found := FindByPrefix(NAV_ITEMS, path, 0);
    var j := found.value;
    if j != i {
      var a, b := NAV_ITEMS[i].route, NAV_ITEMS[j].route;
      if |a| <= |b| {
        assert a == b[..|a|];
        RoutesPrefixFree(i, j);
      } else {
        assert b == a[..|b|];
        RoutesPrefixFree(j, i);
      }
    }
  }

  /** With no route starting the path, the title is the fallback. */
  lemma SectionLabelFallback(path: string)
    requires forall j | 0 <= j < |NAV_ITEMS| :: !(NAV_ITEMS[j].route <= path)
    ensures SectionLabel(path) == FALLBACK_LABEL
  {
  }

  /** Routes below a section keep its title; a path under no route gets the fallback. */
  lemma SectionLabelExamples()
    ensures SectionLabel("/z-reports/12") == "Z-звіти"
    ensures SectionLabel("/serial") == "Серійний номер"
    ensures SectionLabel("/") == FALLBACK_LABEL
  {
    SectionLabelOfRoute("/z-reports/12", 6);
    SectionLabelOfRoute("/serial", 1);
  }
}
