/** scripts/organizer.py: the keyword files, the collision-free destination name, the key
    conversion of the parsed metadata, the destination path, and the rule that decides where an
    image goes. The file system is a finite set of existing paths; moves are returned, not made. */
module Organizer {
  import opened Json
  import opened Text
  import Workflow

  // ----- load_keywords -----

  /** One line's part of the comprehension: its strip, unless that is blank. */
  function LineKeyword(line: string): (ks: seq<string>)
    ensures |ks| <= 1
  {
    if Strip(line) != [] then [Strip(line)] else []
  }

  /** `[line.strip() for line in f if line.strip()]` */
  function LoadKeywords(lines: seq<string>): (keywords: seq<string>)
    ensures |keywords| <= |lines|
  {
    if lines == [] then [] else LineKeyword(lines[0]) + LoadKeywords(lines[1..])
  }

  /** A keyword is loaded exactly when it is the non-blank strip of some line. */
  lemma LoadKeywordsIff(lines: seq<string>, k: string)
    ensures k in LoadKeywords(lines) <==> k != [] && exists i :: 0 <= i < |lines| && Strip(lines[i]) == k
  {
    if k in LoadKeywords(lines) {
      var i := LoadedKeywordSource(lines, k);
    }
    if k != [] && exists i :: 0 <= i < |lines| && Strip(lines[i]) == k {
      var i :| 0 <= i < |lines| && Strip(lines[i]) == k;
      LoadedKeywordPresent(lines, i);
    }
  }

  /** The first line contributes its strip, unless that is blank, ahead of the rest. */
  lemma LoadKeywordsCons(lines: seq<string>)
    requires lines != []
    ensures LoadKeywords(lines) ==
      (if Strip(lines[0]) != [] then [Strip(lines[0])] else []) + LoadKeywords(lines[1..])
  {
  }

  /** Every loaded keyword is the strip of some line. */
  lemma {:induction false} LoadedKeywordSource(lines: seq<string>, k: string) returns (i: nat)
    requires k in LoadKeywords(lines)
    ensures i < |lines| && Strip(lines[i]) == k && k != []
  {
    if Strip(lines[0]) == k && k != [] {
      i := 0;
    } else {
      i := LoadedKeywordSource(lines[1..], k);
      i := i + 1;
    }
  }

  /** The strip of every non-blank line is loaded. */
  lemma {:induction false} LoadedKeywordPresent(lines: seq<string>, i: nat)
    requires i < |lines| && Strip(lines[i]) != []
    ensures Strip(lines[i]) in LoadKeywords(lines)
  {
    LoadKeywordsCons(lines);
    if i > 0 {
      assert lines[1..][i - 1] == lines[i];
      LoadedKeywordPresent(lines[1..], i - 1);
    }
  }

  /** The first line of `a + b` is the first line of `a`. */
  lemma LoadKeywordsConsAppend(a: seq<string>, b: seq<string>)
    requires a != []
    ensures LoadKeywords(a + b) == LineKeyword(a[0]) + LoadKeywords(a[1..] + b)
  {
    assert (a + b)[0] == a[0] && (a + b)[1..] == a[1..] + b;
  }

  lemma SeqAssoc<T>(x: seq<T>, y: seq<T>, z: seq<T>)
    ensures x + (y + z) == (x + y) + z
  {
  }

  /** Lines are read in file order: the keywords of two runs of lines are those of the first
      run followed by those of the second. */
  lemma {:induction false} LoadKeywordsAppend(a: seq<string>, b: seq<string>)
    ensures LoadKeywords(a + b) == LoadKeywords(a) + LoadKeywords(b)
  {
    if a != [] {
      LoadKeywordsConsAppend(a, b);
      LoadKeywordsAppend(a[1..], b);
      SeqAssoc(LineKeyword(a[0]), LoadKeywords(a[1..]), LoadKeywords(b));
    } else {
      assert a + b == b;
    }
  }

  /** Every keyword is non-empty and already stripped. */
  lemma LoadKeywordsClean(lines: seq<string>)
    ensures forall k :: k in LoadKeywords(lines) ==> k != [] && Strip(k) == k
  {
    forall k | k in LoadKeywords(lines) ensures k != [] && Strip(k) == k {
      LoadKeywordsIff(lines, k);
      var i :| 0 <= i < |lines| && Strip(lines[i]) == k;
      StripIdempotent(lines[i]);
    }
  }

  /** Loading a list of loaded keywords again changes nothing. */
  lemma {:induction false} LoadKeywordsIdempotent(lines: seq<string>)
    ensures LoadKeywords(LoadKeywords(lines)) == LoadKeywords(lines)
  {
    if lines != [] {
      LoadKeywordsIdempotent(lines[1..]);
      var s := Strip(lines[0]);
      var rest := LoadKeywords(lines[1..]);
      if s != [] {
        StripIdempotent(lines[0]);
        var out := [s] + rest;
        assert out[0] == s && out[1..] == rest;
        assert LineKeyword(s) == [s];
        assert LoadKeywords(out) == LineKeyword(s) + LoadKeywords(rest);
      } else {
        assert LoadKeywords(lines) == rest;
      }
    }
  }

  /** The keywords of a keyword file's text. */
  function KeywordFile(text: string): seq<string> {
    LoadKeywords(SplitLines(text))
  }

  /** A line holding '\n' only as its last character strips to a string without '\n'. */
  lemma StripDropsNewline(l: string)
    requires l != [] && '\n' !in l[..|l| - 1]
    ensures '\n' !in Strip(l)
  {
    var r := Strip(l);
    var lo := StripSlice(l);
    var body := l[..|l| - 1];
    forall k | 0 <= k < |r| - 1 ensures r[k] != '\n' {
      assert r[k] == l[lo + k] == body[lo + k];
    }
    assert r == [] || r[|r| - 1] != '\n';
  }

  /** A keyword read from a file never holds a line break. */
  lemma KeywordsHaveNoNewline(text: string)
    ensures forall k :: k in KeywordFile(text) ==> '\n' !in k
  {
    var lines := SplitLines(text);
    SplitLinesShape(text);
    forall k | k in KeywordFile(text) ensures '\n' !in k {
      LoadKeywordsIff(lines, k);
      var i :| 0 <= i < |lines| && Strip(lines[i]) == k;
      StripDropsNewline(lines[i]);
    }
  }

  // ----- increment_filename -----

  /** `s.rfind(c)`: the last position of `c`, or -1. */
  function RFind(s: string, c: char): (i: int)
    ensures -1 <= i < |s|
    ensures i >= 0 ==> s[i] == c
    ensures forall j :: i < j < |s| ==> s[j] != c
  {
    if s == [] then -1 else if s[|s| - 1] == c then |s| - 1 else RFind(s[..|s| - 1], c)
  }

  predicate AllDots(s: string) {
    forall i :: 0 <= i < |s| ==> s[i] == '.'
  }

  /** `os.path.splitext(path)` with '/' as separator: the extension starts at the last '.' of
      the file name, unless only dots come before that '.' in the name. */
  function SplitExt(path: string): (parts: (string, string))
    ensures parts.0 + parts.1 == path
  {
    var sepIndex := RFind(path, '/');
    var dotIndex := RFind(path, '.');
    if dotIndex > sepIndex && !AllDots(path[sepIndex + 1..dotIndex]) then (path[..dotIndex], path[dotIndex..])
    else (path, [])
  }

  /** The two parts put together give the path back; an extension is a '.' followed by
      neither another '.' nor a '/'. */
  lemma SplitExtShape(path: string)
    ensures SplitExt(path).0 + SplitExt(path).1 == path
    ensures var ext := SplitExt(path).1;
      ext == [] || (ext[0] == '.' && forall j :: 0 <= j < |ext| ==> ext[j] != '/' && (j > 0 ==> ext[j] != '.'))
  {
    var sepIndex := RFind(path, '/');
    var dotIndex := RFind(path, '.');
    if dotIndex > sepIndex && !AllDots(path[sepIndex + 1..dotIndex]) {
      var ext := path[dotIndex..];
      assert SplitExt(path).1 == ext;
      forall j | 0 <= j < |ext| ensures ext[j] != '/' && (j > 0 ==> ext[j] != '.') {
        assert ext[j] == path[dotIndex + j];
      }
    } else {
      assert SplitExt(path).1 == [];
    }
  }

  /** A name whose only dot leads it, such as ".png", has no extension. */
  lemma LeadingDotIsNotExtension(dir: string, name: string)
    requires '/' !in name && '.' !in name
    ensures SplitExt(dir + "/." + name) == (dir + "/." + name, [])
  {
    var p := dir + "/." + name;
    assert p[|dir|] == '/' && p[|dir| + 1] == '.';
    assert forall j :: |dir| + 1 < j < |p| ==> p[j] == name[j - |dir| - 2];
    assert RFind(p, '.') == |dir| + 1;
    assert RFind(p, '/') == |dir|;
  }

  /** `base + "(" + str(counter) + ")" + ext` */
  function Candidate(path: string, n: nat): string {
    SplitExt(path).0 + "(" + NatToString(n) + ")" + SplitExt(path).1
  }

  /** The counter can be read back from between the brackets. */
  lemma BracketedInjective(base: string, a: string, b: string, ext: string)
    requires base + "(" + a + ")" + ext == base + "(" + b + ")" + ext
    ensures a == b
  {
    var x := base + "(" + a + ")" + ext;
    var y := base + "(" + b + ")" + ext;
    assert |a| == |b|;
    assert x[|base| + 1..|base| + 1 + |a|] == a;
    assert y[|base| + 1..|base| + 1 + |b|] == b;
  }

  /** Different counters give different names. */
  lemma CandidateInjective(path: string, m: nat, n: nat)
    requires Candidate(path, m) == Candidate(path, n)
    ensures m == n
  {
    BracketedInjective(SplitExt(path).0, NatToString(m), NatToString(n), SplitExt(path).1);
    NatToStringInjective(m, n);
  }

  /** The first `c` candidate names. */
  function CandidateSet(path: string, c: nat): set<string> {
    if c == 0 then {} else CandidateSet(path, c - 1) + {Candidate(path, c)}
  }

  /** Every name in the set is one of the first `c` candidates. */
  lemma {:induction false} CandidateSetSource(path: string, c: nat, x: string) returns (m: nat)
    requires x in CandidateSet(path, c)
    ensures 1 <= m <= c && x == Candidate(path, m)
  {
    if x == Candidate(path, c) {
      m := c;
    } else {
      m := CandidateSetSource(path, c - 1, x);
    }
  }

  /** The first `c` candidate names are `c` different names. */
  lemma {:induction false} CandidateSetSize(path: string, c: nat)
    ensures |CandidateSet(path, c)| == c
  {
    if c > 0 {
      CandidateSetSize(path, c - 1);
      var next := Candidate(path, c);
      if next in CandidateSet(path, c - 1) {
        var m := CandidateSetSource(path, c - 1, next);
        CandidateInjective(path, m, c);
        assert false;
      }
    }
  }

  /** When the first `c` candidates are all taken, they are `c` of the existing paths. */
  lemma {:induction false} CandidatesTaken(path: string, c: nat, existing: set<string>)
    requires forall m :: 1 <= m <= c ==> Candidate(path, m) in existing
    ensures CandidateSet(path, c) <= existing
    ensures c <= |existing|
  {
    if c > 0 {
      CandidatesTaken(path, c - 1, existing);
    }
    CandidateSetSize(path, c);
    SubsetSize(CandidateSet(path, c), existing);
  }

  /** `increment_filename(filepath)` against the set of existing paths: the first free
      `base(n)ext` for n = 1, 2, ... */
  method IncrementFilename(path: string, existing: set<string>) returns (newPath: string)
    ensures newPath !in existing
    ensures exists n :: (1 <= n <= |existing| + 1 && newPath == Candidate(path, n) &&
                         forall m :: 1 <= m < n ==> Candidate(path, m) in existing)
  {
    var (base, ext) := SplitExt(path);
    var counter := 1;
    newPath := base + "(" + NatToString(counter) + ")" + ext;
    while newPath in existing
      invariant 1 <= counter <= |existing| + 1 && newPath == Candidate(path, counter)
      invariant forall m :: 1 <= m < counter ==> Candidate(path, m) in existing
      decreases |existing| + 1 - counter
    {
      CandidatesTaken(path, counter, existing);
      counter := counter + 1;
      newPath := base + "(" + NatToString(counter) + ")" + ext;
    }
  }

  lemma {:induction false} SubsetSize<T>(a: set<T>, b: set<T>)
    requires a <= b
    ensures |a| <= |b|
    decreases |a|
  {
    if a != {} {
      var x :| x in a;
      SubsetSize(a - {x}, b - {x});
    }
  }

  // ----- convert_keys_to_strings -----

  /** `str(k)` */
  function KeyString(k: Key): string {
    match k
    case KStr(s) => s
    case KInt(i) => IntToString(i)
  }

  /** `d[k] = v` in a dict being built: a key already present keeps its place and takes the
      new value, a new key goes last. */
  function Insert(es: seq<(Key, Value)>, k: Key, v: Value): (r: seq<(Key, Value)>)
    ensures HasKey(r, k)
    ensures forall k' :: HasKey(r, k') <==> HasKey(es, k') || k' == k
    ensures forall e :: e in r ==> e == (k, v) || e in es
    ensures DistinctKeys(es) ==> DistinctKeys(r)
    ensures !HasKey(es, k) ==> r == es + [(k, v)]
  {
    if HasKey(es, k) then
      var i := KeyIndex(es, k);
      var r := es[i := (k, v)];
      assert r[i].0 == k;
      assert forall k' :: HasKey(es, k') ==> HasKey(r, k') by {
        forall k' | HasKey(es, k') ensures HasKey(r, k') {
          var j :| 0 <= j < |es| && es[j].0 == k';
          assert r[j].0 == k';
        }
      }
      assert forall e :: e in r ==> e == (k, v) || e in es by {
        forall e | e in r ensures e == (k, v) || e in es {
          var j :| 0 <= j < |r| && r[j] == e;
          if j != i {
            assert es[j] == e;
          }
        }
      }
      r
    else
      assert (es + [(k, v)])[|es|].0 == k;
      assert forall k' :: HasKey(es, k') ==> HasKey(es + [(k, v)], k') by {
        forall k' | HasKey(es, k') ensures HasKey(es + [(k, v)], k') {
          var j :| 0 <= j < |es| && es[j].0 == k';
          assert (es + [(k, v)])[j].0 == k';
        }
      }
      es + [(k, v)]
  }

  /** `convert_keys_to_strings(d)`: every dict key becomes `str(key)`, recursively through
      dicts and lists; keys that become equal merge into the first one's place with the last
      one's value. */
  function ConvertKeys(d: Value): (r: Value)
    ensures r.Dict? <==> d.Dict?
    ensures r.List? <==> d.List?
    ensures d.List? ==> |r.items| == |d.items|
    decreases d
  {
    match d
    case Dict(es) => Dict(ConvertEntries(es))
    case List(xs) => List(ConvertItems(xs))
    case _ => d
  }

  function ConvertEntries(es: seq<(Key, Value)>): seq<(Key, Value)>
    decreases es
  {
    if es == [] then []
    else Insert(ConvertEntries(es[..|es| - 1]), KStr(KeyString(es[|es| - 1].0)), ConvertEntry(es[|es| - 1]))
  }

  function ConvertEntry(e: (Key, Value)): Value
    decreases e
  {
    ConvertKeys(e.1)
  }

  /** `[convert_keys_to_strings(i) for i in d]`: same length, same order. */
  function ConvertItems(xs: seq<Value>): (ys: seq<Value>)
    ensures |ys| == |xs|
    ensures forall i :: 0 <= i < |xs| ==> ys[i] == ConvertKeys(xs[i])
    decreases xs
  {
    if xs == [] then [] else ConvertItems(xs[..|xs| - 1]) + [ConvertKeys(xs[|xs| - 1])]
  }

  /** Every dict anywhere in `v` has string keys only, each once. */
  predicate WellKeyed(v: Value)
    decreases v
  {
    match v
    case Dict(es) => DistinctKeys(es) && forall e :: e in es ==> EntryWellKeyed(e)
    case List(xs) => forall x :: x in xs ==> WellKeyed(x)
    case _ => true
  }

  predicate EntryWellKeyed(e: (Key, Value))
    decreases e
  {
    e.0.KStr? && WellKeyed(e.1)
  }

  /** The conversion leaves only string keys, each once. */
  lemma {:induction false} ConvertKeysWellKeyed(d: Value)
    ensures WellKeyed(ConvertKeys(d))
    decreases d
  {
    match d
    case Dict(es) => ConvertEntriesWellKeyed(es);
    case List(xs) =>
      forall x | x in ConvertItems(xs) ensures WellKeyed(x) {
        var i :| 0 <= i < |xs| && ConvertItems(xs)[i] == x;
        ConvertKeysWellKeyed(xs[i]);
      }
    case _ =>
  }

  lemma {:induction false} ConvertEntriesWellKeyed(es: seq<(Key, Value)>)
    ensures DistinctKeys(ConvertEntries(es))
    ensures forall e :: e in ConvertEntries(es) ==> EntryWellKeyed(e)
    decreases es
  {
    if es != [] {
      var n := |es| - 1;
      ConvertEntriesWellKeyed(es[..n]);
      ConvertEntryWellKeyed(es[n]);
    }
  }

  lemma {:induction false} ConvertEntryWellKeyed(e: (Key, Value))
    ensures WellKeyed(ConvertEntry(e))
    decreases e
  {
    ConvertKeysWellKeyed(e.1);
  }

  /** A tree whose keys are already distinct strings is left as it is. */
  lemma {:induction false} ConvertKeysFixpoint(d: Value)
    requires WellKeyed(d)
    ensures ConvertKeys(d) == d
    decreases d
  {
    match d
    case Dict(es) => ConvertEntriesFixpoint(es);
    case List(xs) =>
      forall i | 0 <= i < |xs| ensures ConvertKeys(xs[i]) == xs[i] {
        assert xs[i] in xs;
        ConvertKeysFixpoint(xs[i]);
      }
      assert ConvertItems(xs) == xs;
    case _ =>
  }

  lemma {:induction false} ConvertEntriesFixpoint(es: seq<(Key, Value)>)
    requires DistinctKeys(es) && forall e :: e in es ==> EntryWellKeyed(e)
    ensures ConvertEntries(es) == es
    decreases es
  {
    if es != [] {
      var n := |es| - 1;
      var pre := es[..n];
      var last := es[n];
      WellKeyedPrefix(es);
      ConvertEntriesFixpoint(pre);
      assert last in es;
      ConvertEntryFixpoint(last);
      assert KStr(KeyString(last.0)) == last.0;
      assert ConvertEntries(es) == Insert(pre, last.0, last.1);
      assert pre + [(last.0, last.1)] == es;
    }
  }

  /** Dropping the last entry of a well-keyed dict leaves a well-keyed dict without its key. */
  lemma WellKeyedPrefix(es: seq<(Key, Value)>)
    requires es != [] && DistinctKeys(es) && forall e :: e in es ==> EntryWellKeyed(e)
    ensures var pre := es[..|es| - 1];
      && DistinctKeys(pre) && (forall e :: e in pre ==> EntryWellKeyed(e))
      && !HasKey(pre, es[|es| - 1].0)
  {
    var n := |es| - 1;
    var pre := es[..n];
    forall e | e in pre ensures EntryWellKeyed(e) {
      var j :| 0 <= j < |pre| && pre[j] == e;
      assert es[j] == e;
    }
    forall i, j | 0 <= i < j < |pre| ensures pre[i].0 != pre[j].0 {
      assert pre[i] == es[i] && pre[j] == es[j];
    }
    forall j | 0 <= j < n ensures pre[j].0 != es[n].0 {
      assert pre[j] == es[j];
    }
  }

  lemma {:induction false} ConvertEntryFixpoint(e: (Key, Value))
    requires EntryWellKeyed(e)
    ensures ConvertEntry(e) == e.1
    decreases e
  {
    ConvertKeysFixpoint(e.1);
  }

  /** Converting twice gives what converting once gives. */
  lemma ConvertKeysIdempotent(d: Value)
    ensures ConvertKeys(ConvertKeys(d)) == ConvertKeys(d)
  {
    ConvertKeysWellKeyed(d);
    ConvertKeysFixpoint(ConvertKeys(d));
  }

  /** The keys of a converted dict are the strings of the original keys. */
  lemma ConvertedKeys(es: seq<(Key, Value)>, k: Key)
    ensures HasKey(ConvertEntries(es), k) <==> exists i :: 0 <= i < |es| && k == KStr(KeyString(es[i].0))
  {
    if HasKey(ConvertEntries(es), k) {
      var i := ConvertedKeySource(es, k);
    }
    if exists i :: 0 <= i < |es| && k == KStr(KeyString(es[i].0)) {
      var i :| 0 <= i < |es| && k == KStr(KeyString(es[i].0));
      ConvertedKeyPresent(es, i);
    }
  }

  /** Every key of a converted dict is the string of an original key. */
  lemma {:induction false} ConvertedKeySource(es: seq<(Key, Value)>, k: Key) returns (i: nat)
    requires HasKey(ConvertEntries(es), k)
    ensures i < |es| && k == KStr(KeyString(es[i].0))
    decreases es
  {
    var n := |es| - 1;
    var pre := es[..n];
    var kn := KStr(KeyString(es[n].0));
    assert ConvertEntries(es) == Insert(ConvertEntries(pre), kn, ConvertEntry(es[n]));
    if k == kn {
      i := n;
    } else {
      i := ConvertedKeySource(pre, k);
      assert pre[i] == es[i];
    }
  }

  /** The string of every original key is a key of the converted dict. */
  lemma {:induction false} ConvertedKeyPresent(es: seq<(Key, Value)>, i: nat)
    requires i < |es|
    ensures HasKey(ConvertEntries(es), KStr(KeyString(es[i].0)))
    decreases es
  {
    var n := |es| - 1;
    var pre := es[..n];
    var kn := KStr(KeyString(es[n].0));
    assert ConvertEntries(es) == Insert(ConvertEntries(pre), kn, ConvertEntry(es[n]));
    if i < n {
      ConvertedKeyPresent(pre, i);
      assert pre[i] == es[i];
      assert HasKey(ConvertEntries(pre), KStr(KeyString(es[i].0)));
    }
  }

  /** When no two keys have the same string, the conversion keeps every entry in its place. */
  lemma {:induction false} ConvertEntriesPointwise(es: seq<(Key, Value)>)
    requires forall i, j :: 0 <= i < j < |es| ==> KeyString(es[i].0) != KeyString(es[j].0)
    ensures |ConvertEntries(es)| == |es|
    ensures forall i :: 0 <= i < |es| ==> ConvertEntries(es)[i] == (KStr(KeyString(es[i].0)), ConvertKeys(es[i].1))
    decreases es
  {
    if es != [] {
      var n := |es| - 1;
      var pre := es[..n];
      var kn := KStr(KeyString(es[n].0));
      forall i, j | 0 <= i < j < |pre| ensures KeyString(pre[i].0) != KeyString(pre[j].0) {
        assert pre[i] == es[i] && pre[j] == es[j];
      }
      ConvertEntriesPointwise(pre);
      var before := ConvertEntries(pre);
      if HasKey(before, kn) {
        var i := ConvertedKeySource(pre, kn);
        assert false;
      }
      assert ConvertEntries(es) == before + [(kn, ConvertEntry(es[n]))];
      forall i | 0 <= i < |es| ensures ConvertEntries(es)[i] == (KStr(KeyString(es[i].0)), ConvertKeys(es[i].1)) {
        if i < n {
          assert pre[i] == es[i];
        }
      }
    }
  }

  /** The integer key 1 and the string key "1" merge: the first keeps its place, the last
      value wins. */
  lemma CollidingKeysMerge(a: Value, b: Value)
    ensures ConvertKeys(Dict([(KInt(1), a), (KStr("1"), b)])) == Dict([(KStr("1"), ConvertKeys(b))])
  {
    var es := [(KInt(1), a), (KStr("1"), b)];
    assert es[..1] == [(KInt(1), a)] && es[..1][..0] == [];
    assert KeyString(KInt(1)) == "1";
    assert ConvertEntry(es[..1][0]) == ConvertKeys(a);
    assert ConvertEntries(es[..1][..0]) == [];
    var first := ConvertEntries(es[..1]);
    assert first == Insert([], KStr("1"), ConvertKeys(a));
    assert first == [(KStr("1"), ConvertKeys(a))];
    assert HasKey(first, KStr("1")) && KeyIndex(first, KStr("1")) == 0;
    assert ConvertEntry(es[1]) == ConvertKeys(b);
    assert ConvertEntries(es) == Insert(first, KStr("1"), ConvertKeys(b));
  }

  // ----- move_file_to_category -----

  /** `name.replace(' ', '_').lower()` */
  function Slug(name: string): (slug: string)
    ensures |slug| == |name|
  {
    Lower(seq(|name|, i requires 0 <= i < |name| => if name[i] == ' ' then '_' else name[i]))
  }

  /** The slug has the name's length, no spaces and no upper-case letters, and keeps every
      other character up to case. */
  lemma SlugShape(name: string)
    ensures |Slug(name)| == |name|
    ensures forall i :: 0 <= i < |name| ==> Slug(name)[i] != ' ' && !('A' <= Slug(name)[i] <= 'Z')
    ensures forall i :: 0 <= i < |name| && name[i] != ' ' ==> Slug(name)[i] == LowerChar(name[i])
  {
  }

  /** A slug is its own slug. */
  lemma SlugIdempotent(name: string)
    ensures Slug(Slug(name)) == Slug(name)
  {
    SlugShape(name);
    SlugShape(Slug(name));
  }

  /** `os.path.join(a, b)` with '/' as separator. */
  function JoinPath(a: string, b: string): (r: string)
    ensures b != [] && b[0] == '/' ==> r == b
  {
    if b != [] && b[0] == '/' then b
    else if a == [] || a[|a| - 1] == '/' then a + b
    else a + "/" + b
  }

  /** `os.path.basename(p)`: what follows the last '/'. */
  function Basename(p: string): (r: string)
    ensures '/' !in r
    ensures |r| <= |p| && r == p[|p| - |r|..]
    ensures |r| < |p| ==> p[|p| - |r| - 1] == '/'
  {
    p[RFind(p, '/') + 1..]
  }

  /** `os.path.join(os.path.join(output_dir, category, slug), os.path.basename(file_path))` */
  function Destination(filePath: string, outputDir: string, category: string, name: string): string {
    JoinPath(JoinPath(JoinPath(outputDir, category), Slug(name)), Basename(filePath))
  }

  /** With plain directory names, the destination is `output_dir/category/slug/file`. */
  lemma DestinationLayout(filePath: string, outputDir: string, category: string, name: string)
    requires outputDir != [] && outputDir[|outputDir| - 1] != '/'
    requires category != [] && '/' !in category
    requires name != [] && '/' !in name
    requires Basename(filePath) != []
    ensures Destination(filePath, outputDir, category, name) ==
      outputDir + "/" + category + "/" + Slug(name) + "/" + Basename(filePath)
  {
    SlugShape(name);
    assert Slug(name)[0] != '/' by {
      assert name[0] != '/';
      assert Slug(name)[0] == if name[0] == ' ' then '_' else LowerChar(name[0]);
    }
    assert Slug(name)[|name| - 1] != '/' by {
      assert name[|name| - 1] != '/';
      assert Slug(name)[|name| - 1] == if name[|name| - 1] == ' ' then '_' else LowerChar(name[|name| - 1]);
    }
    var b := Basename(filePath);
    assert b[0] != '/' by { assert b[0] in b; }
  }

  /** The destination `move_file_to_category` moves to: the plain destination if it is free,
      otherwise `increment_filename`'s result for it. */
  method MoveDestination(filePath: string, outputDir: string, category: string, name: string, existing: set<string>)
    returns (dest: string)
    ensures dest !in existing
    ensures Destination(filePath, outputDir, category, name) !in existing ==>
      dest == Destination(filePath, outputDir, category, name)
    ensures Destination(filePath, outputDir, category, name) in existing ==>
      exists n :: (1 <= n <= |existing| + 1 && dest == Candidate(Destination(filePath, outputDir, category, name), n) &&
                   forall m :: 1 <= m < n ==> Candidate(Destination(filePath, outputDir, category, name), m) in existing)
  {
    var categoryDir := JoinPath(JoinPath(outputDir, category), Slug(name));
    dest := JoinPath(categoryDir, Basename(filePath));
    if dest in existing {
      dest := IncrementFilename(dest, existing);
    }
  }

  // ----- organize_images -----

  /** `xs.remove(x)` when `x` is present: its first occurrence goes. */
  function RemoveFirst(xs: seq<string>, x: string): (r: seq<string>)
    ensures |r| == if x in xs then |xs| - 1 else |xs|
    ensures forall y :: y in r ==> y in xs
  {
    if xs == [] then []
    else if xs[0] == x then xs[1..]
    else [xs[0]] + RemoveFirst(xs[1..], x)
  }

  /** The position of the first occurrence of `x`. */
  function IndexOf(xs: seq<string>, x: string): (i: nat)
    requires x in xs
    ensures i < |xs| && xs[i] == x && x !in xs[..i]
  {
    if xs[0] == x then 0
    else
      var j := IndexOf(xs[1..], x);
      assert xs[..j + 1] == [xs[0]] + xs[1..][..j];
      j + 1
  }

  /** Removing an absent name changes nothing. */
  lemma {:induction false} RemoveFirstAbsent(xs: seq<string>, x: string)
    requires x !in xs
    ensures RemoveFirst(xs, x) == xs
  {
    if xs != [] {
      RemoveFirstAbsent(xs[1..], x);
      assert [xs[0]] + xs[1..] == xs;
    }
  }

  /** Removing a present name drops exactly its first occurrence. */
  lemma {:induction false} RemoveFirstAt(xs: seq<string>, x: string)
    requires x in xs
    ensures RemoveFirst(xs, x) == xs[..IndexOf(xs, x)] + xs[IndexOf(xs, x) + 1..]
  {
    if xs[0] != x {
      RemoveFirstAt(xs[1..], x);
      var j := IndexOf(xs[1..], x);
      assert xs[..j + 1] == [xs[0]] + xs[1..][..j];
      assert xs[j + 2..] == xs[1..][j + 1..];
    }
  }

  predicate Distinct(xs: seq<string>) {
    forall i, j :: 0 <= i < j < |xs| ==> xs[i] != xs[j]
  }

  /** Dropping the entry at `i` from a list without repeats leaves every other entry, still
      without repeats. */
  lemma DropAtDistinct(xs: seq<string>, i: nat)
    requires Distinct(xs) && i < |xs|
    ensures Distinct(xs[..i] + xs[i + 1..])
    ensures forall d :: d in xs[..i] + xs[i + 1..] <==> d in xs && d != xs[i]
  {
    var r := xs[..i] + xs[i + 1..];
    forall a | 0 <= a < |r| ensures r[a] == xs[if a < i then a else a + 1] {
    }
    forall a, b | 0 <= a < b < |r| ensures r[a] != r[b] {
    }
    forall d | d in r ensures d in xs && d != xs[i] {
      var a :| 0 <= a < |r| && r[a] == d;
    }
    forall d | d in xs && d != xs[i] ensures d in r {
      var j :| 0 <= j < |xs| && xs[j] == d;
      if j < i {
        assert r[j] == d;
      } else {
        assert r[j - 1] == d;
      }
    }
  }

  /** From a list without repeats, removing a name leaves every other name, still without
      repeats. */
  lemma RemoveFirstDistinct(xs: seq<string>, x: string)
    requires Distinct(xs)
    ensures Distinct(RemoveFirst(xs, x))
    ensures forall d :: d in RemoveFirst(xs, x) <==> d in xs && d != x
  {
    if x !in xs {
      RemoveFirstAbsent(xs, x);
    } else {
      RemoveFirstAt(xs, x);
      DropAtDistinct(xs, IndexOf(xs, x));
    }
  }

  /** The sub-directory list of one `os.walk` step, which the loop may edit in place to keep the
      walk out of some directories. */
  class WalkLevel {
    var dirs: seq<string>

    constructor(dirs: seq<string>)
      ensures this.dirs == dirs
    {
      this.dirs := dirs;
    }

    /** `if 'characters' in dirs: dirs.remove('characters')`, then the same for 'locations'. */
    method PruneCategoryDirs()
      modifies this
      ensures dirs == RemoveFirst(RemoveFirst(old(dirs), "characters"), "locations")
    {
      if "characters" in dirs {
        dirs := RemoveFirst(dirs, "characters");
      } else {
        RemoveFirstAbsent(dirs, "characters");
      }
      if "locations" in dirs {
        dirs := RemoveFirst(dirs, "locations");
      } else {
        RemoveFirstAbsent(dirs, "locations");
      }
    }
  }

  /** With distinct directory names, as a directory listing has, the pruned list holds every
      other directory and neither output category. */
  lemma PrunedDirs(dirs: seq<string>)
    requires Distinct(dirs)
    ensures var r := RemoveFirst(RemoveFirst(dirs, "characters"), "locations");
      forall d :: d in r <==> d in dirs && d != "characters" && d != "locations"
  {
    RemoveFirstDistinct(dirs, "characters");
    RemoveFirstDistinct(RemoveFirst(dirs, "characters"), "locations");
  }

  /** `file.lower().endswith('.png')` */
  predicate IsPng(file: string) {
    |file| >= 4 && Lower(file)[|file| - 4..] == ".png"
  }

  /** The test ignores case. */
  lemma PngIgnoresCase(file: string)
    ensures IsPng(file) <==> IsPng(Lower(file))
  {
    LowerIdempotent(file);
  }

  /** `any(keyword in prompt.value for prompt in prompts)`: a case-sensitive substring test. */
  predicate AnyPromptContains(prompts: seq<string>, keyword: string) {
    exists p :: p in prompts && Contains(p, keyword)
  }

  /** The fallback's keyword loop: the keywords found in some prompt, in keyword-list order. */
  function PromptHits(keywords: seq<string>, prompts: seq<string>): (hits: seq<string>)
    ensures |hits| <= |keywords|
  {
    if keywords == [] then []
    else
      var n := |keywords| - 1;
      var hits := PromptHits(keywords[..n], prompts);
      if AnyPromptContains(prompts, keywords[n]) then hits + [keywords[n]] else hits
  }

  /** `for character in character_keywords: if any(...): found_names.append(character)` */
  method CollectPromptHits(keywords: seq<string>, prompts: seq<string>) returns (found: seq<string>)
    ensures found == PromptHits(keywords, prompts)
  {
    found := [];
    for i := 0 to |keywords|
      invariant found == PromptHits(keywords[..i], prompts)
    {
      assert keywords[..i + 1][..i] == keywords[..i];
      if exists p :: p in prompts && Contains(p, keywords[i]) {
        found := found + [keywords[i]];
      }
    }
    assert keywords[..|keywords|] == keywords;
  }

  /** A keyword is a hit exactly when it is listed and some prompt contains it. */
  lemma {:induction false} PromptHitsIff(keywords: seq<string>, prompts: seq<string>, k: string)
    ensures k in PromptHits(keywords, prompts) <==> k in keywords && AnyPromptContains(prompts, k)
  {
    if keywords != [] {
      var n := |keywords| - 1;
      PromptHitsIff(keywords[..n], prompts, k);
      assert keywords == keywords[..n] + [keywords[n]];
    }
  }

  /** The first hit is the first listed keyword that some prompt contains. */
  lemma {:induction false} FirstPromptHit(keywords: seq<string>, prompts: seq<string>)
    requires PromptHits(keywords, prompts) != []
    ensures exists i :: (0 <= i < |keywords| && PromptHits(keywords, prompts)[0] == keywords[i] &&
                         AnyPromptContains(prompts, keywords[i]) &&
                         forall j :: 0 <= j < i ==> !AnyPromptContains(prompts, keywords[j]))
  {
    var n := |keywords| - 1;
    var pre := keywords[..n];
    assert forall j :: 0 <= j < n ==> pre[j] == keywords[j];
    if PromptHits(pre, prompts) != [] {
      FirstPromptHit(pre, prompts);
      var i :| 0 <= i < n && PromptHits(pre, prompts)[0] == pre[i] && AnyPromptContains(prompts, pre[i]) &&
        forall j :: 0 <= j < i ==> !AnyPromptContains(prompts, pre[j]);
      assert PromptHits(keywords, prompts)[0] == keywords[i];
    } else {
      forall j | 0 <= j < n ensures !AnyPromptContains(prompts, keywords[j]) {
        PromptHitsIff(pre, prompts, keywords[j]);
      }
    }
  }

  /** Unlike the node keyword filter, the prompt fallback is case-sensitive. */
  lemma FallbackIsCaseSensitive()
    ensures PromptHits(["alice"], ["Alice"]) == []
    ensures Workflow.KeywordHits("Alice", ["alice"]) == ["alice"]
  {
    var text, pat := "Alice", "alice";
    forall i | 0 <= i <= |text| ensures !(pat <= text[i..]) {
      if i == 0 {
        assert text[i..][0] != pat[0];
      }
    }
    ContainsIff(text, pat);
    assert !AnyPromptContains([text], pat);
    assert [pat][..0] == [];
    assert Lower(text) == pat;
    assert Contains(Lower(text), Lower(pat));
  }

  /** A move of the image into `output_dir/category/slug(name)`. */
  datatype Move = Move(category: string, name: string)

  /** `for name in names: move_file_to_category(..., category, name); break` */
  function FirstMove(category: string, names: seq<string>): (moves: seq<Move>)
    ensures |moves| <= 1
    ensures moves != [] <==> names != []
    ensures names != [] ==> moves[0] == Move(category, names[0])
  {
    if names == [] then [] else [Move(category, names[0])]
  }

  /** The prompt fallback: characters first, then locations; `None` stands for a parse that
      found no prompt information. */
  function Fallback(prompts: Option<seq<string>>, characterKeywords: seq<string>, locationKeywords: seq<string>): (moves: seq<Move>)
    ensures |moves| <= 1
    ensures moves != [] ==> prompts.Some?
    ensures forall m :: m in moves ==> m.category == "characters" || m.category == "locations"
  {
    if prompts.None? then []
    else if PromptHits(characterKeywords, prompts.value) != [] then
      FirstMove("characters", PromptHits(characterKeywords, prompts.value))
    else FirstMove("locations", PromptHits(locationKeywords, prompts.value))
  }

  /** The fallback's precedence: it moves to a character exactly when some listed character
      occurs in a prompt, so a location is chosen only when none does; and the name it moves
      to is the first keyword of the chosen list, in list order, that some prompt contains. */
  lemma FallbackPrecedence(prompts: seq<string>, characterKeywords: seq<string>, locationKeywords: seq<string>)
    requires Fallback(Some(prompts), characterKeywords, locationKeywords) != []
    ensures var m := Fallback(Some(prompts), characterKeywords, locationKeywords)[0];
      var ks := if m.category == "characters" then characterKeywords else locationKeywords;
      && (m.category == "characters" <==> exists k :: k in characterKeywords && AnyPromptContains(prompts, k))
      && exists i :: (0 <= i < |ks| && m.name == ks[i] && AnyPromptContains(prompts, ks[i]) &&
                      forall j :: 0 <= j < i ==> !AnyPromptContains(prompts, ks[j]))
  {
    var ch := PromptHits(characterKeywords, prompts);
    if ch != [] {
      PromptHitsIff(characterKeywords, prompts, ch[0]);
      FirstPromptHit(characterKeywords, prompts);
    } else {
      forall k | k in characterKeywords ensures !AnyPromptContains(prompts, k) {
        PromptHitsIff(characterKeywords, prompts, k);
      }
      FirstPromptHit(locationKeywords, prompts);
    }
  }

  /** The moves `organize_images` makes for one image, as written: a node character, else a
      node location; then, whenever no node character was found, the prompt fallback. */
  function Route(foundCharacters: seq<string>, foundLocations: seq<string>, prompts: Option<seq<string>>,
                 characterKeywords: seq<string>, locationKeywords: seq<string>): (moves: seq<Move>)
    ensures |moves| <= 2
    ensures moves == [] ==> foundCharacters == [] && foundLocations == []
    ensures moves == [] ==> Fallback(prompts, characterKeywords, locationKeywords) == []
  {
    (if foundCharacters != [] then FirstMove("characters", foundCharacters) else FirstMove("locations", foundLocations))
    + (if foundCharacters == [] then Fallback(prompts, characterKeywords, locationKeywords) else [])
  }

  /** The decision steps of `organize_images` for one image, in the program's order. */
  method RouteImage(foundCharacters: seq<string>, foundLocations: seq<string>, prompts: Option<seq<string>>,
                    characterKeywords: seq<string>, locationKeywords: seq<string>) returns (moves: seq<Move>)
    ensures moves == Route(foundCharacters, foundLocations, prompts, characterKeywords, locationKeywords)
  {
    moves := [];
    if |foundCharacters| > 0 {
      moves := moves + [Move("characters", foundCharacters[0])];
    } else if |foundLocations| > 0 {
      moves := moves + [Move("locations", foundLocations[0])];
    }
    if |foundCharacters| == 0 && prompts.Some? {
      var found := CollectPromptHits(characterKeywords, prompts.value);
      if |found| > 0 {
        moves := moves + [Move("characters", found[0])];
      } else {
        found := CollectPromptHits(locationKeywords, prompts.value);
        if |found| > 0 {
          moves := moves + [Move("locations", found[0])];
        }
      }
    }
  }

  /** A node character decides alone: one move, to the first character found. */
  lemma NodeCharacterWins(foundCharacters: seq<string>, foundLocations: seq<string>, prompts: Option<seq<string>>,
                          characterKeywords: seq<string>, locationKeywords: seq<string>)
    requires foundCharacters != []
    ensures Route(foundCharacters, foundLocations, prompts, characterKeywords, locationKeywords) ==
      [Move("characters", foundCharacters[0])]
  {
  }

  /** As written, an image moved by a node location is moved a second time when a prompt
      names a character. */
  lemma RouteCanMoveTwice()
    ensures Route([], ["beach"], Some(["alice at the beach"]), ["alice"], ["beach"]) ==
      [Move("locations", "beach"), Move("characters", "alice")]
  {
    assert ["alice"][..0] == [];
    assert "alice" <= "alice at the beach";
    assert "alice at the beach" in ["alice at the beach"];
    assert AnyPromptContains(["alice at the beach"], "alice");
  }

  /** The rule as the fallback's comment means it: the prompt is consulted only when the nodes
      named neither a character nor a location, so an image moves at most once. */
  function RouteIntended(foundCharacters: seq<string>, foundLocations: seq<string>, prompts: Option<seq<string>>,
                         characterKeywords: seq<string>, locationKeywords: seq<string>): (moves: seq<Move>)
    ensures |moves| <= 1
  {
    if foundCharacters != [] then FirstMove("characters", foundCharacters)
    else if foundLocations != [] then FirstMove("locations", foundLocations)
    else Fallback(prompts, characterKeywords, locationKeywords)
  }

  /** The intended rule makes at most one move, and it is the first move the rule as written
      makes. */
  lemma RouteIntendedIsFirstMove(foundCharacters: seq<string>, foundLocations: seq<string>, prompts: Option<seq<string>>,
                                 characterKeywords: seq<string>, locationKeywords: seq<string>)
    ensures var intended := RouteIntended(foundCharacters, foundLocations, prompts, characterKeywords, locationKeywords);
      var asWritten := Route(foundCharacters, foundLocations, prompts, characterKeywords, locationKeywords);
      |intended| <= 1 && intended == asWritten[..if |asWritten| < 1 then |asWritten| else 1]
  {
    var asWritten := Route(foundCharacters, foundLocations, prompts, characterKeywords, locationKeywords);
    if foundCharacters == [] && foundLocations == [] {
      assert asWritten == Fallback(prompts, characterKeywords, locationKeywords);
    }
  }

  /** The image is moved to a character it names when there is one, to a location otherwise:
      a character from the nodes or, failing nodes, a listed character some prompt contains,
      and likewise for a location. */
  lemma RouteIntendedSound(foundCharacters: seq<string>, foundLocations: seq<string>, prompts: Option<seq<string>>,
                           characterKeywords: seq<string>, locationKeywords: seq<string>)
    ensures forall m :: m in RouteIntended(foundCharacters, foundLocations, prompts, characterKeywords, locationKeywords) ==>
      (m.category == "characters" &&
        (m.name in foundCharacters || (m.name in characterKeywords && prompts.Some? && AnyPromptContains(prompts.value, m.name)))) ||
      (m.category == "locations" && foundCharacters == [] &&
        (m.name in foundLocations || (m.name in locationKeywords && prompts.Some? && AnyPromptContains(prompts.value, m.name))))
  {
    if foundCharacters == [] && foundLocations == [] && prompts.Some? {
      var ch := PromptHits(characterKeywords, prompts.value);
      var lo := PromptHits(locationKeywords, prompts.value);
      if ch != [] {
        PromptHitsIff(characterKeywords, prompts.value, ch[0]);
      } else if lo != [] {
        PromptHitsIff(locationKeywords, prompts.value, lo[0]);
      }
    }
  }

  /** The image stays put exactly when the nodes name nothing and no listed keyword occurs in a
      prompt. */
  lemma RouteIntendedNoMove(foundCharacters: seq<string>, foundLocations: seq<string>, prompts: Option<seq<string>>,
                            characterKeywords: seq<string>, locationKeywords: seq<string>)
    ensures RouteIntended(foundCharacters, foundLocations, prompts, characterKeywords, locationKeywords) == [] <==>
      foundCharacters == [] && foundLocations == [] &&
      (prompts.None? ||
        forall k :: (k in characterKeywords || k in locationKeywords) ==> !AnyPromptContains(prompts.value, k))
  {
    if prompts.Some? {
      var ps := prompts.value;
      var ch := PromptHits(characterKeywords, ps);
      var lo := PromptHits(locationKeywords, ps);
      if ch == [] && lo == [] {
        forall k | k in characterKeywords || k in locationKeywords ensures !AnyPromptContains(ps, k) {
          PromptHitsIff(characterKeywords, ps, k);
          PromptHitsIff(locationKeywords, ps, k);
        }
      }
      if ch != [] {
        PromptHitsIff(characterKeywords, ps, ch[0]);
      }
      if lo != [] {
        PromptHitsIff(locationKeywords, ps, lo[0]);
      }
    }
  }
}
