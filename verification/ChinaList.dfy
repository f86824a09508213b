/** Writing the ChinaList as chunk files and a loader that names them in order. */
module ChinaList {
  const CHUNK_SIZE := 20000

  /** Decimal digits. */
  function Digits(n: nat): (s: string)
    ensures s != ""
  {
    (if n < 10 then "" else Digits(n / 10)) + [Digit(n % 10)]
  }

  function Digit(d: nat): (c: char)
    requires d < 10
    ensures c as int == '0' as int + d
  {
    (d + '0' as int) as char
  }

  /** printf %03d */
  function Pad3(n: nat): string {
    if n < 10 then "00" + Digits(n) else if n < 100 then "0" + Digits(n) else Digits(n)
  }

  function FileName(n: nat): string {
    "chinalist-" + Pad3(n) + ".lua"
  }

  function Value(s: string): int {
    if s == "" then 0 else Value(s[..|s| - 1]) * 10 + (s[|s| - 1] as int - '0' as int)
  }

  lemma ValueAppend(s: string, c: char)
    ensures Value(s + [c]) == Value(s) * 10 + (c as int - '0' as int)
  {
    assert (s + [c])[..|s|] == s;
  }

  lemma {:induction false} DigitsValue(n: nat)
    ensures Value(Digits(n)) == n
  {
    assert Value("") == 0;
    hide Digit, Value;
    if n < 10 {
      ValueAppend("", Digit(n));
    } else {
      DigitsValue(n / 10);
      ValueAppend(Digits(n / 10), Digit(n % 10));
    }
  }

  lemma {:induction false} LeadingZero(s: string)
    ensures Value("0" + s) == Value(s)
  {
    var t := "0" + s;
    if s == "" {
      assert t == "0" && t[..0] == "";
    } else {
      LeadingZero(s[..|s| - 1]);
      assert t[..|t| - 1] == "0" + s[..|s| - 1];
    }
  }

  lemma PadValue(n: nat)
    ensures Value(Pad3(n)) == n
  {
    DigitsValue(n);
    LeadingZero(Digits(n));
    LeadingZero("0" + Digits(n));
    assert "00" + Digits(n) == "0" + ("0" + Digits(n));
  }

  /** No chunk overwrites another. */
  lemma FileNamesDiffer(a: nat, b: nat)
    requires FileName(a) == FileName(b)
    ensures a == b
  {
    var x, y := FileName(a), FileName(b);
    assert x[10..|x| - 4] == Pad3(a) && y[10..|y| - 4] == Pad3(b);
    PadValue(a);
    PadValue(b);
  }

  /** The number in decimal digits, at least three of them, and no zeros in front of more. */
  ghost predicate Decimal(s: string, n: nat) {
    && |s| >= 3 && Value(s) == n && (|s| > 3 ==> s[0] != '0')
    && forall i :: 0 <= i < |s| ==> '0' <= s[i] <= '9'
  }

  lemma {:induction false} DigitsForm(n: nat)
    ensures var s := Digits(n);
            && (forall i :: 0 <= i < |s| ==> '0' <= s[i] <= '9')
            && (n > 0 ==> s[0] != '0')
            && (|s| >= 2 <==> n >= 10) && (|s| >= 3 <==> n >= 100)
  {
    if n >= 10 {
      DigitsForm(n / 10);
    }
  }

  lemma FileNameIs(n: nat)
    ensures exists digits :: Decimal(digits, n) && FileName(n) == "chinalist-" + digits + ".lua"
  {
    DigitsForm(n);
    PadValue(n);
    hide Digits, Value;
    var digits := Pad3(n);
    assert Decimal(digits, n);
    assert FileName(n) == "chinalist-" + digits + ".lua";
  }

  function NonBlank(domains: seq<string>): seq<string> {
    if domains == [] then [] else (if domains[0] == "" then [] else [domains[0]]) + NonBlank(domains[1..])
  }

  /** What the loader adds, chunk after chunk. */
  function Loaded(files: map<string, seq<string>>, loader: seq<string>): seq<string>
    requires forall f <- loader :: f in files
  {
    if loader == [] then [] else files[loader[0]] + Loaded(files, loader[1..])
  }

  ghost predicate Named(files: map<string, seq<string>>, loader: seq<string>) {
    && (forall i :: 0 <= i < |loader| ==> loader[i] == FileName(i) && loader[i] in files)
    && (forall f <- files :: f in loader)
  }

  /** Full chunks, but for the last, which holds at least one entry. */
  ghost predicate Sized(files: map<string, seq<string>>, loader: seq<string>) {
    forall i :: 0 <= i < |loader| && loader[i] in files ==>
      if i < |loader| - 1 then |files[loader[i]]| == 20000 else 1 <= |files[loader[i]]| <= 20000
  }

  lemma {:induction false} LoadedAppend(files: map<string, seq<string>>, a: seq<string>, f: string)
    requires f in files && forall g <- a :: g in files
    ensures forall g <- a + [f] :: g in files
    ensures Loaded(files, a + [f]) == Loaded(files, a) + files[f]
    decreases |a|
  {
    if a == [] {
      assert a + [f] == [f] && [f][1..] == [];
    } else {
      LoadedAppend(files, a[1..], f);
      assert (a + [f])[1..] == a[1..] + [f];
    }
  }

  lemma {:induction false} LoadedFrame(files: map<string, seq<string>>, loader: seq<string>, f: string,
                                       content: seq<string>)
    requires f !in loader && forall g <- loader :: g in files
    ensures Loaded(files[f := content], loader) == Loaded(files, loader)
    decreases |loader|
  {
    if loader != [] {
      LoadedFrame(files, loader[1..], f, content);
    }
  }

  /** The loop's view: closed chunks, and the chunk under way. */
  ghost predicate Written(files: map<string, seq<string>>, loader: seq<string>, open: nat, domains: seq<string>) {
    && Named(files, loader) && Sized(files, loader) && Loaded(files, loader) == domains
    && (open == 0 ==> loader == [] || |files[loader[|loader| - 1]]| == CHUNK_SIZE)
    && (open > 0 ==> loader != [] && |files[loader[|loader| - 1]]| == open < CHUNK_SIZE)
  }

  lemma NewName(loader: seq<string>, files: map<string, seq<string>>)
    requires Named(files, loader)
    ensures FileName(|loader|) !in files && FileName(|loader|) !in loader
  {
    hide FileName;
    forall i | 0 <= i < |loader|
      ensures loader[i] != FileName(|loader|)
    {
      if FileName(i) == FileName(|loader|) {
        FileNamesDiffer(i, |loader|);
      }
    }
  }

  lemma StartNamed(files: map<string, seq<string>>, loader: seq<string>, f: string, content: seq<string>)
    requires Named(files, loader) && f == FileName(|loader|)
    ensures Named(files[f := content], loader + [f])
  {
    hide FileName;
    var loader' := loader + [f];
    assert forall i :: 0 <= i < |loader| ==> loader'[i] == loader[i];
    assert loader'[|loader|] == f;
  }

  lemma StartSized(files: map<string, seq<string>>, loader: seq<string>, f: string, content: seq<string>)
    requires f !in loader && 1 <= |content| <= CHUNK_SIZE
    requires forall i :: 0 <= i < |loader| ==> loader[i] in files && |files[loader[i]]| == CHUNK_SIZE
    ensures Sized(files[f := content], loader + [f])
  {
    var files', loader' := files[f := content], loader + [f];
    forall i | 0 <= i < |loader'|
      ensures if i < |loader'| - 1 then |files'[loader'[i]]| == CHUNK_SIZE else 1 <= |files'[loader'[i]]| <= CHUNK_SIZE
    {
      if i < |loader| {
        assert loader'[i] == loader[i] && loader[i] in loader;
      }
    }
  }

  /** A new chunk with its first entry. */
  lemma StartChunk(files: map<string, seq<string>>, loader: seq<string>, domains: seq<string>, d: string)
    requires Written(files, loader, 0, domains)
    ensures var f := FileName(|loader|);
            Written(files[f := [d]], loader + [f], 1, domains + [d])
  {
    var f := FileName(|loader|);
    NewName(loader, files);
    StartNamed(files, loader, f, [d]);
    StartSized(files, loader, f, [d]);
    LoadedFrame(files, loader, f, [d]);
    LoadedAppend(files[f := [d]], loader, f);
    hide FileName, Named, Sized, Loaded;
  }

  lemma LastIsNew(files: map<string, seq<string>>, loader: seq<string>)
    requires Named(files, loader) && loader != []
    ensures loader[|loader| - 1] !in loader[..|loader| - 1]
    ensures forall g <- loader :: g in files
  {
    var n := |loader| - 1;
    if loader[n] in loader[..n] {
      var i :| 0 <= i < n && loader[i] == loader[n];
      FileNamesDiffer(i, n);
    }
  }

  lemma ExtendSized(files: map<string, seq<string>>, loader: seq<string>, content: seq<string>)
    requires Sized(files, loader) && loader != [] && loader[|loader| - 1] !in loader[..|loader| - 1]
    requires 1 <= |content| <= CHUNK_SIZE
    ensures Sized(files[loader[|loader| - 1] := content], loader)
  {
    var n := |loader| - 1;
    assert forall i :: 0 <= i < n ==> loader[..n][i] == loader[i];
    assert forall i :: 0 <= i < n ==> loader[i] != loader[n];
  }

  lemma ExtendNamed(files: map<string, seq<string>>, loader: seq<string>, content: seq<string>)
    requires Named(files, loader) && loader != []
    ensures Named(files[loader[|loader| - 1] := content], loader)
  {
    hide FileName;
  }

  lemma ExtendLoaded(files: map<string, seq<string>>, before: seq<string>, f: string, d: string)
    requires f in files && f !in before && forall g <- before :: g in files
    ensures Loaded(files[f := files[f] + [d]], before + [f]) == Loaded(files, before + [f]) + [d]
  {
    LoadedAppend(files, before, f);
    LoadedFrame(files, before, f, files[f] + [d]);
    LoadedAppend(files[f := files[f] + [d]], before, f);
    hide Loaded;
    Reassociate(Loaded(files, before), files[f], [d]);
  }

  /** One more entry in the chunk under way; a full chunk is closed. */
  lemma ExtendChunk(files: map<string, seq<string>>, loader: seq<string>, open: nat, domains: seq<string>, d: string)
    requires open > 0 && Written(files, loader, open, domains)
    ensures var f := loader[|loader| - 1];
            Written(files[f := files[f] + [d]], loader, if open + 1 == CHUNK_SIZE then 0 else open + 1, domains + [d])
  {
    var n := |loader| - 1;
    LastIsNew(files, loader);
    ExtendSized(files, loader, files[loader[n]] + [d]);
    ExtendNamed(files, loader, files[loader[n]] + [d]);
    assert loader == loader[..n] + [loader[n]];
    ExtendLoaded(files, loader[..n], loader[n], d);
    hide FileName, Named, Sized, Loaded;
  }

  lemma Reassociate(a: seq<string>, b: seq<string>, c: seq<string>)
    ensures a + (b + c) == (a + b) + c
  {
  }

  lemma OneMore(domains: seq<string>, i: nat)
    requires i < |domains|
    ensures NonBlank(domains[..i + 1]) == NonBlank(domains[..i]) + if domains[i] == "" then [] else [domains[i]]
  {
    NonBlankSnoc(domains[..i], domains[i]);
    assert domains[..i + 1] == domains[..i] + [domains[i]];
  }

  lemma {:induction false} NonBlankSnoc(a: seq<string>, d: string)
    ensures NonBlank(a + [d]) == NonBlank(a) + if d == "" then [] else [d]
    decreases |a|
  {
    if a == [] {
      assert a + [d] == [d];
    } else {
      NonBlankSnoc(a[1..], d);
      assert (a + [d])[1..] == a[1..] + [d];
    }
  }

  lemma OpenChunk(files: map<string, seq<string>>, loader: seq<string>, open: nat, domains: seq<string>)
    requires Written(files, loader, open, domains)
    ensures open > 0 ==> loader != [] && loader[|loader| - 1] in files
    ensures open < CHUNK_SIZE
  {
  }

  lemma SetTwice(files: map<string, seq<string>>, f: string, content: seq<string>)
    ensures files[f := []][f := content] == files[f := content]
  {
  }

  lemma NothingWritten()
    ensures Written(map[], [], 0, NonBlank([]))
  {
  }

  /** One line of the input. */
  method AddDomain(files: map<string, seq<string>>, loader: seq<string>, entries: nat, chunkFile: string,
                   domain: string, ghost before: seq<string>)
    returns (files': map<string, seq<string>>, loader': seq<string>, entries': nat, chunkFile': string)
    requires Written(files, loader, entries, before) && domain != ""
    requires entries > 0 ==> loader != [] && chunkFile == loader[|loader| - 1]
    ensures Written(files', loader', entries', before + [domain])
    ensures entries' > 0 ==> loader' != [] && chunkFile' == loader'[|loader'| - 1]
  {
    OpenChunk(files, loader, entries, before);
    files', loader', entries', chunkFile' := files, loader, entries, chunkFile;
    if entries == 0 {
      StartChunk(files, loader, before, domain);
      chunkFile' := FileName(|loader|);
      files' := files[chunkFile' := []];
      loader' := loader + [chunkFile'];
    } else {
      ExtendChunk(files, loader, entries, before, domain);
    }
    hide *;
    files' := files'[chunkFile' := files'[chunkFile'] + [domain]];
    SetTwice(files, chunkFile', [domain]);
    assert [] + [domain] == [domain];
    entries' := entries + 1;
    if entries' >= CHUNK_SIZE {
      entries' := 0;
    }
  }

  /** Loading the chunks in loader order gives the non-blank input; nothing is lost, moved or repeated. */
  method WriteChunks(domains: seq<string>) returns (files: map<string, seq<string>>, loader: seq<string>, count: nat)
    ensures Named(files, loader) && Sized(files, loader)
    ensures Loaded(files, loader) == NonBlank(domains) && count == |NonBlank(domains)|
  {
    NothingWritten();
    files, loader, count := map[], [], 0;
    var entries, chunkFile := 0, "";
    assert domains[..0] == [] && domains[..|domains|] == domains && |NonBlank([])| == 0;
    for i := 0 to |domains|
      invariant Written(files, loader, entries, NonBlank(domains[..i]))
      invariant entries > 0 ==> loader != [] && chunkFile == loader[|loader| - 1]
      invariant count == |NonBlank(domains[..i])|
    {
      hide *;
      OneMore(domains, i);
      if domains[i] != "" {
        files, loader, entries, chunkFile :=
          AddDomain(files, loader, entries, chunkFile, domains[i], NonBlank(domains[..i]));
        count := count + 1;
      }
    }
  }
}
