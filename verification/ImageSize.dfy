/** Image sizes as text, and the price of an image of a given size. */
module ImageSize {
  import opened Options

  // ---------- Python strings ----------

  predicate StartsWith(s: string, prefix: string) {
    |prefix| <= |s| && s[..|prefix|] == prefix
  }

  predicate Contains(s: string, sub: string) {
    StartsWith(s, sub) || (s != "" && Contains(s[1..], sub))
  }

  function ReplaceAll(s: string, sub: string, with: string): string
    requires sub != ""
  {
    if s == "" then ""
    else if StartsWith(s, sub) then with + ReplaceAll(s[|sub|..], sub, with)
    else [s[0]] + ReplaceAll(s[1..], sub, with)
  }

  function SplitOn(s: string, sep: string): (r: seq<string>)
    requires sep != ""
    ensures r != []
  {
    if s == "" then [""]
    else if StartsWith(s, sep) then [""] + SplitOn(s[|sep|..], sep)
    else
      var rest := SplitOn(s[1..], sep);
      [[s[0]] + rest[0]] + rest[1..]
  }

  function DigitChar(d: nat): char
    requires d < 10
  {
    '0' + d as char
  }

  function Digits(n: nat): (s: string)
    ensures s != "" && forall c :: c in s ==> '0' <= c <= '9'
  {
    if n < 10 then [DigitChar(n)] else Digits(n / 10) + [DigitChar(n % 10)]
  }

  /** Python's `str` of an integer. */
  function Print(n: int): string {
    if n < 0 then "-" + Digits(-n) else Digits(n)
  }

  function ParseDigits(s: string): Option<nat> {
    if s == "" then None
    else
      var last := s[|s| - 1];
      if !('0' <= last <= '9') then None
      else
        var d := (last - '0') as nat;
        if |s| == 1 then Some(d)
        else
          var front := ParseDigits(s[..|s| - 1]);
          if front.None? then None else Some(10 * front.value + d)
  }

  /** Python's `int` of a decimal numeral with an optional sign. */
  function ParseInt(s: string): Option<int> {
    if StartsWith(s, "-") then
      var n := ParseDigits(s[1..]);
      if n.None? then None else Some(0 - n.value)
    else
      var n := ParseDigits(if StartsWith(s, "+") then s[1..] else s);
      if n.None? then None else Some(n.value)
  }

  lemma {:induction false} ParsePrintedDigits(n: nat)
    ensures ParseDigits(Digits(n)) == Some(n)
  {
    if n >= 10 {
      ParsePrintedDigits(n / 10);
      assert Digits(n)[..|Digits(n)| - 1] == Digits(n / 10);
    }
  }

  lemma NoSign(n: nat)
    ensures !StartsWith(Digits(n), "-") && !StartsWith(Digits(n), "+")
  {
    assert Digits(n)[0] in Digits(n);
    assert Digits(n)[..1][0] == Digits(n)[0];
  }

  lemma ParseNegative(n: nat)
    ensures ParseInt("-" + Digits(n)) == Some(0 - n)
  {
    var s := "-" + Digits(n);
    ParsePrintedDigits(n);
    assert s[..1] == "-" && s[1..] == Digits(n);
  }

  /** Printing and parsing an integer gives it back. */
  lemma ParsePrinted(n: int)
    ensures ParseInt(Print(n)) == Some(n)
  {
    if n < 0 {
      ParseNegative(-n);
    } else {
      NoSign(n);
      ParsePrintedDigits(n);
    }
  }

  // ---------- sizes ----------

  const DEFAULT_SIZE := "1024-x-1024"

  /** The size with "-x-" between its dimensions. */
  function Normalise(size: string): string {
    var s := if size == "" then DEFAULT_SIZE else size;
    if 'x' in s && !Contains(s, "-x-") then ReplaceAll(s, "x", "-x-") else s
  }

  datatype Dimensions = Dimensions(height: int, width: int)

  /** The two dimensions, if there are exactly two and both are numerals. */
  function ParseSize(size: string): Option<Dimensions> {
    var parts := SplitOn(Normalise(size), "-x-");
    if |parts| != 2 then None
    else
      var h, w := ParseInt(parts[0]), ParseInt(parts[1]);
      if h.None? || w.None? then None else Some(Dimensions(h.value, w.value))
  }

  lemma StartsWithSeparator(s: string)
    ensures StartsWith(s, "-x-") ==> |s| > 1 && s[0] == '-' && s[1] == 'x'
  {
    if StartsWith(s, "-x-") {
      assert s[..3][0] == s[0] && s[..3][1] == s[1];
    }
  }

  /** A text that has the separator has a dash followed by its letter. */
  lemma {:induction false} DashBeforeLetter(s: string)
    ensures Contains(s, "-x-") ==> exists i :: 0 <= i < |s| - 1 && s[i] == '-' && s[i + 1] == 'x'
  {
    StartsWithSeparator(s);
    if s != "" && Contains(s[1..], "-x-") {
      DashBeforeLetter(s[1..]);
      var i :| 0 <= i < |s| - 2 && s[1..][i] == '-' && s[1..][i + 1] == 'x';
      assert s[i + 1] == '-' && s[i + 2] == 'x';
    }
  }

  /** Free of the separator letter, and not ending in a dash: what a printed number is. */
  predicate Numeral(s: string) {
    s != "" && 'x' !in s && s[|s| - 1] != '-'
  }

  lemma PrintsNumeral(n: int)
    ensures Numeral(Print(n))
  {
    var d := Digits(if n < 0 then -n else n);
    assert d[|d| - 1] in d;
    assert Print(n)[|Print(n)| - 1] == d[|d| - 1];
  }

  lemma ShortFormHasNoSeparator(a: string, b: string)
    requires Numeral(a) && 'x' !in b
    ensures !Contains(a + "x" + b, "-x-")
  {
    var s := a + "x" + b;
    forall i | 0 <= i < |s| - 1 && s[i + 1] == 'x' ensures s[i] != '-' {
      assert i + 1 == |a| && s[i] == a[|a| - 1];
    }
    DashBeforeLetter(s);
  }

  lemma {:induction false} NothingToReplace(s: string, with: string)
    requires 'x' !in s
    ensures ReplaceAll(s, "x", with) == s
  {
    if s != "" {
      NothingToReplace(s[1..], with);
    }
  }

  lemma HeadOfJoin(a: string, middle: string, b: string)
    requires a != ""
    ensures (a + middle + b)[0] == a[0] && (a + middle + b)[1..] == a[1..] + middle + b
    ensures a + middle + b == [a[0]] + (a[1..] + middle + b)
  {
  }

  lemma {:induction false} ReplaceSeparator(a: string, b: string)
    requires 'x' !in a && 'x' !in b
    ensures ReplaceAll(a + "x" + b, "x", "-x-") == a + "-x-" + b
  {
    var s := a + "x" + b;
    if a == "" {
      assert s[1..] == b && s[..1] == "x";
      NothingToReplace(b, "-x-");
    } else {
      HeadOfJoin(a, "x", b);
      HeadOfJoin(a, "-x-", b);
      assert s[..1] == [a[0]];
      ReplaceSeparator(a[1..], b);
    }
  }

  lemma {:induction false} NothingToSplit(s: string)
    requires 'x' !in s
    ensures SplitOn(s, "-x-") == [s]
  {
    if s != "" {
      StartsWithSeparator(s);
      NothingToSplit(s[1..]);
      assert [s[0]] + s[1..] == s;
    }
  }

  lemma {:induction false} SplitAtSeparator(a: string, b: string)
    requires 'x' !in a && 'x' !in b
    ensures SplitOn(a + "-x-" + b, "-x-") == [a, b]
  {
    var s := a + "-x-" + b;
    if a == "" {
      assert s[..3] == "-x-" && s[3..] == b;
      NothingToSplit(b);
    } else {
      HeadOfJoin(a, "-x-", b);
      assert s[1] != 'x';
      StartsWithSeparator(s);
      SplitAtSeparator(a[1..], b);
      assert [a[0]] + a[1..] == a;
    }
  }

  lemma {:induction false} SeparatorIsFound(a: string, b: string)
    ensures Contains(a + "-x-" + b, "-x-")
  {
    var s := a + "-x-" + b;
    if a == "" {
      assert s[..3] == "-x-";
    } else {
      assert s[1..] == a[1..] + "-x-" + b;
      SeparatorIsFound(a[1..], b);
    }
  }

  lemma {:induction false} ReplacedContains(s: string)
    requires 'x' in s
    ensures Contains(ReplaceAll(s, "x", "-x-"), "-x-")
  {
    var r := ReplaceAll(s, "x", "-x-");
    if StartsWith(s, "x") {
      assert r[..3] == "-x-";
    } else {
      assert r[1..] == ReplaceAll(s[1..], "x", "-x-");
      ReplacedContains(s[1..]);
    }
  }

  /** Both spellings of a size normalise to the same text, for all integers. */
  lemma BothSpellingsNormalise(h: int, w: int)
    ensures Normalise(Print(h) + "x" + Print(w)) == Print(h) + "-x-" + Print(w)
    ensures Normalise(Print(h) + "-x-" + Print(w)) == Print(h) + "-x-" + Print(w)
  {
    var a, b := Print(h), Print(w);
    PrintsNumeral(h);
    PrintsNumeral(w);
    ShortFormHasNoSeparator(a, b);
    ReplaceSeparator(a, b);
    assert (a + "x" + b)[|a|] == 'x';
    SeparatorIsFound(a, b);
  }

  /** Normalising is idempotent on every text. */
  lemma NormaliseIsIdempotent(size: string)
    ensures Normalise(Normalise(size)) == Normalise(size)
  {
    var s := if size == "" then DEFAULT_SIZE else size;
    if 'x' in s && !Contains(s, "-x-") {
      ReplacedContains(s);
    }
  }

  /** Printing a size in either spelling and parsing it recovers both dimensions. */
  lemma SizeRoundTrip(h: int, w: int)
    ensures ParseSize(Print(h) + "x" + Print(w)) == Some(Dimensions(h, w))
    ensures ParseSize(Print(h) + "-x-" + Print(w)) == Some(Dimensions(h, w))
  {
    BothSpellingsNormalise(h, w);
    PrintsNumeral(h);
    PrintsNumeral(w);
    SplitAtSeparator(Print(h), Print(w));
    ParsePrinted(h);
    ParsePrinted(w);
  }

  // ---------- prices ----------

  /** The names under which a price is looked up, in order. */
  function NamesToCheck(size: string, model: string, provider: string, quality: string): seq<Option<string>> {
    var own := provider != "" && StartsWith(model, provider + "/");
    var bare := if own then Some(ReplaceAll(model, provider + "/", "")) else None;
    var base := if own then provider + "/" + size + "/" + bare.value else size + "/" + model;
    var parts := SplitOn(model, "/");
    var unprefixed := size + "/" + parts[|parts| - 1];
    [ Some(if quality != "" then quality + "/" + base else base),
      Some(base),
      Some("medium/" + base),
      Some(if quality != "" then quality + "/" + unprefixed else unprefixed),
      Some(unprefixed),
      Some(model),
      bare ]
  }

  function FirstPrice(prices: map<string, real>, names: seq<Option<string>>): Option<real> {
    if names == [] then None
    else if names[0].Some? && names[0].value in prices then Some(prices[names[0].value])
    else FirstPrice(prices, names[1..])
  }

  datatype Cost = Cost(usd: real) | BadSize | UnknownModel

  /** default_image_cost_calculator; `prices` is the cost per pixel by name. */
  function ImageCost(prices: map<string, real>, model: string, provider: string, quality: string, n: int,
                     size: string): Cost {
    var dims := ParseSize(size);
    if dims.None? then BadSize
    else PriceOf(FirstPrice(prices, NamesToCheck(Normalise(size), model, provider, quality)), dims.value, n)
  }

  function PriceOf(perPixel: Option<real>, dims: Dimensions, n: int): Cost {
    if perPixel.None? then UnknownModel
    else Cost(perPixel.value * dims.height as real * dims.width as real * n as real)
  }

  /** Both spellings cost the same, and that is the pixel price times the true dimensions. */
  lemma SpellingDoesNotMatter(prices: map<string, real>, model: string, provider: string, quality: string, n: int,
                              h: int, w: int)
    ensures var short, long := Print(h) + "x" + Print(w), Print(h) + "-x-" + Print(w);
      ImageCost(prices, model, provider, quality, n, short)
      == ImageCost(prices, model, provider, quality, n, long)
      == PriceOf(FirstPrice(prices, NamesToCheck(long, model, provider, quality)), Dimensions(h, w), n)
  {
    BothSpellingsNormalise(h, w);
    SizeRoundTrip(h, w);
  }

  // ---------- which sizes parse ----------

  function Join(parts: seq<string>, sep: string): string
    requires parts != []
  {
    if |parts| == 1 then parts[0] else parts[0] + sep + Join(parts[1..], sep)
  }

  lemma JoinTwo(part: string, rest: seq<string>, sep: string)
    requires rest != []
    ensures Join([part] + rest, sep) == part + sep + Join(rest, sep)
  {
    assert ([part] + rest)[1..] == rest;
  }

  lemma JoinLongerHead(c: char, parts: seq<string>, sep: string)
    requires parts != []
    ensures Join([[c] + parts[0]] + parts[1..], sep) == [c] + Join(parts, sep)
  {
    if |parts| > 1 {
      JoinTwo([c] + parts[0], parts[1..], sep);
    }
  }

  lemma {:induction false} SplitJoins(s: string, sep: string)
    requires sep != ""
    ensures Join(SplitOn(s, sep), sep) == s
  {
    if s != "" {
      if StartsWith(s, sep) {
        var rest := SplitOn(s[|sep|..], sep);
        SplitJoins(s[|sep|..], sep);
        JoinTwo("", rest, sep);
        assert SplitOn(s, sep) == [""] + rest && s == "" + sep + s[|sep|..];
      } else {
        var rest := SplitOn(s[1..], sep);
        SplitJoins(s[1..], sep);
        JoinLongerHead(s[0], rest, sep);
        assert SplitOn(s, sep) == [[s[0]] + rest[0]] + rest[1..] && s == [s[0]] + s[1..];
      }
    }
  }

  lemma {:induction false} DigitsHaveNoLetter(s: string)
    requires ParseDigits(s).Some?
    ensures 'x' !in s
  {
    var front := s[..|s| - 1];
    assert s == front + [s[|s| - 1]];
    if |s| > 1 {
      DigitsHaveNoLetter(front);
    }
  }

  lemma NumeralsHaveNoLetter(s: string)
    requires ParseInt(s).Some?
    ensures 'x' !in s
  {
    var signed := StartsWith(s, "-") || StartsWith(s, "+");
    if signed {
      assert s[..1][0] == s[0] && s == s[..1] + s[1..];
    }
    DigitsHaveNoLetter(if signed then s[1..] else s);
  }

  /** A size parses exactly as two numerals with the separator between them. */
  lemma SizeParsesIff(size: string, dims: Dimensions)
    ensures ParseSize(size) == Some(dims) <==>
      exists a, b :: Normalise(size) == a + "-x-" + b
                  && ParseInt(a) == Some(dims.height) && ParseInt(b) == Some(dims.width)
  {
    var s := Normalise(size);
    var parts := SplitOn(s, "-x-");
    if ParseSize(size) == Some(dims) {
      SplitJoins(s, "-x-");
      assert parts[1..] == [parts[1]];
      assert s == parts[0] + "-x-" + parts[1];
    }
    forall a, b | s == a + "-x-" + b && ParseInt(a) == Some(dims.height) && ParseInt(b) == Some(dims.width)
      ensures ParseSize(size) == Some(dims)
    {
      NumeralsHaveNoLetter(a);
      NumeralsHaveNoLetter(b);
      SplitAtSeparator(a, b);
    }
  }

  lemma Thousand()
    ensures DEFAULT_SIZE == Print(1024) + "-x-" + Print(1024)
  {
    assert Digits(102) == "102" by { assert Digits(10) == "10"; }
    assert Digits(1024) == Digits(102) + "4";
  }

  lemma MissingSizeIs(h: int, w: int)
    requires DEFAULT_SIZE == Print(h) + "-x-" + Print(w)
    ensures Normalise("") == DEFAULT_SIZE && ParseSize("") == Some(Dimensions(h, w))
  {
    BothSpellingsNormalise(h, w);
    SizeRoundTrip(h, w);
  }

  /** A missing size is 1024 by 1024. */
  lemma MissingSize()
    ensures Normalise("") == Print(1024) + "-x-" + Print(1024)
    ensures ParseSize("") == Some(Dimensions(1024, 1024))
  {
    Thousand();
    MissingSizeIs(1024, 1024);
  }

  // ---------- the price, written out ----------

  /** The text ends a path: it follows the last slash, or there is no slash. */
  predicate IsLastPart(model: string, last: string) {
    && |last| <= |model| && model[|model| - |last|..] == last && '/' !in last
    && (|last| < |model| ==> model[|model| - |last| - 1] == '/')
  }

  lemma {:induction false} LastOfSplit(model: string, last: string)
    requires IsLastPart(model, last)
    ensures var parts := SplitOn(model, "/"); parts[|parts| - 1] == last
  {
    if model == "" {
    } else if |last| < |model| {
      assert model[1..][|model| - 1 - |last|..] == last;
      assert StartsWith(model, "/") <==> model[0] == '/' by { assert model[..1] == [model[0]]; }
      if |last| < |model| - 1 {
        assert model[1..][|model| - 2 - |last|] == '/';
      }
      LastOfSplit(model[1..], last);
      if !StartsWith(model, "/") {
        assert |last| < |model[1..]|;
        assert model[0] != '/';
        LongerSplit(model[1..], |model| - 2 - |last|);
      }
    } else {
      assert model == last;
      assert model[..1] == [model[0]] && model[0] in last;
      assert IsLastPart(model[1..], model[1..]);
      LastOfSplit(model[1..], model[1..]);
      NoSlash(model[1..]);
      assert [model[0]] + model[1..] == model;
    }
  }

  lemma {:induction false} NoSlash(s: string)
    requires '/' !in s
    ensures SplitOn(s, "/") == [s]
  {
    if s != "" {
      assert s[..1] == [s[0]] && s[0] in s;
      NoSlash(s[1..]);
      assert [s[0]] + s[1..] == s;
    }
  }

  lemma {:induction false} LongerSplit(s: string, i: nat)
    requires i < |s| && s[i] == '/'
    ensures |SplitOn(s, "/")| > 1
  {
    if i > 0 {
      LongerSplit(s[1..], i - 1);
    } else {
      assert s[..1] == "/";
    }
  }

  lemma {:induction false} NotContained(s: string, sub: string, with: string)
    requires sub != "" && !Contains(s, sub)
    ensures ReplaceAll(s, sub, with) == s
  {
    if s != "" {
      NotContained(s[1..], sub, with);
    }
  }

  function AllSome(names: seq<string>): seq<Option<string>> {
    seq(|names|, i requires 0 <= i < |names| => Some(names[i]))
  }

  /** The names tried for a model that is not listed under its provider. */
  lemma PlainNames(size: string, model: string, provider: string, quality: string, last: string)
    requires (provider == "" || !StartsWith(model, provider + "/")) && IsLastPart(model, last)
    ensures NamesToCheck(size, model, provider, "")
         == AllSome([size + "/" + model, size + "/" + model, "medium/" + (size + "/" + model),
                     size + "/" + last, size + "/" + last, model]) + [None]
    ensures quality != "" ==>
      NamesToCheck(size, model, provider, quality)
      == AllSome([quality + "/" + (size + "/" + model), size + "/" + model, "medium/" + (size + "/" + model),
                  quality + "/" + (size + "/" + last), size + "/" + last, model]) + [None]
  {
    LastOfSplit(model, last);
  }

  /** The model without its provider: the rest, without any further mention of the provider. */
  lemma BareName(rest: string, prefix: string)
    requires prefix != ""
    ensures StartsWith(prefix + rest, prefix) && ReplaceAll(prefix + rest, prefix, "") == ReplaceAll(rest, prefix, "")
    ensures !Contains(rest, prefix) ==> ReplaceAll(prefix + rest, prefix, "") == rest
  {
    if !Contains(rest, prefix) {
      NotContained(rest, prefix, "");
    }
    assert (prefix + rest)[..|prefix|] == prefix && (prefix + rest)[|prefix|..] == rest;
  }

  /** The names tried for a model that is listed under its provider, `bare` being the model without
      its provider. */
  lemma ProviderNames(size: string, model: string, provider: string, quality: string, last: string, bare: string)
    requires provider != "" && StartsWith(model, provider + "/") && IsLastPart(model, last)
    requires bare == ReplaceAll(model, provider + "/", "")
    ensures var base := provider + "/" + size + "/" + bare;
      && NamesToCheck(size, model, provider, "")
         == AllSome([base, base, "medium/" + base, size + "/" + last, size + "/" + last, model, bare])
      && (quality != "" ==>
            NamesToCheck(size, model, provider, quality)
            == AllSome([quality + "/" + base, base, "medium/" + base,
                        quality + "/" + (size + "/" + last), size + "/" + last, model, bare]))
  {
    LastOfSplit(model, last);
  }

  /** The name has a price. */
  predicate Listed(prices: map<string, real>, name: Option<string>) {
    name.Some? && name.value in prices
  }

  /** The name has a price, and no name before it has one. */
  predicate IsFirst(prices: map<string, real>, names: seq<Option<string>>, i: nat)
    requires i < |names|
  {
    Listed(prices, names[i]) && forall j :: 0 <= j < i ==> !Listed(prices, names[j])
  }

  /** The price is that of the first name that has one. */
  lemma {:induction false} FirstListed(prices: map<string, real>, names: seq<Option<string>>)
    ensures FirstPrice(prices, names) == None <==> forall name :: name in names ==> !Listed(prices, name)
    ensures forall i :: 0 <= i < |names| && IsFirst(prices, names, i) ==>
      FirstPrice(prices, names) == Some(prices[names[i].value])
  {
    if names != [] {
      var rest := names[1..];
      FirstListed(prices, rest);
      assert names == [names[0]] + rest && names[0] in names;
      forall i | 0 <= i < |names| && IsFirst(prices, names, i)
        ensures FirstPrice(prices, names) == Some(prices[names[i].value])
      {
        if i > 0 {
          assert forall j :: 0 <= j < i ==> rest[j] == names[j + 1];
          assert IsFirst(prices, rest, i - 1);
        }
      }
    }
  }

  /** The size spells these dimensions. */
  predicate Spells(size: string, h: int, w: int) {
    size == Print(h) + "x" + Print(w) || size == Print(h) + "-x-" + Print(w) || (size == "" && h == w == 1024)
  }

  lemma SpelledSize(size: string, h: int, w: int)
    requires Spells(size, h, w)
    ensures Normalise(size) == Print(h) + "-x-" + Print(w) && ParseSize(size) == Some(Dimensions(h, w))
  {
    BothSpellingsNormalise(h, w);
    SizeRoundTrip(h, w);
    if size == "" {
      MissingSize();
    }
  }

  /** The cost is the price of the first listed name times height, width and number; the model is
      unknown exactly when no name is listed. */
  ghost predicate CostsFirst(cost: Cost, prices: map<string, real>, names: seq<Option<string>>,
                             h: int, w: int, n: int) {
    && (cost == UnknownModel <==> forall name :: name in names ==> !Listed(prices, name))
    && (forall i :: 0 <= i < |names| && IsFirst(prices, names, i) ==>
          cost == Cost(prices[names[i].value] * h as real * w as real * n as real))
  }

  lemma PriceOfFirst(prices: map<string, real>, names: seq<Option<string>>, h: int, w: int, n: int)
    ensures CostsFirst(PriceOf(FirstPrice(prices, names), Dimensions(h, w), n), prices, names, h, w, n)
  {
    FirstListed(prices, names);
  }

  /** An image of any size, in either spelling or left out, is priced by the first listed name. */
  lemma CostIsFirstListed(prices: map<string, real>, model: string, provider: string, quality: string, n: int,
                          h: int, w: int, size: string)
    requires Spells(size, h, w)
    ensures CostsFirst(ImageCost(prices, model, provider, quality, n, size), prices,
                       NamesToCheck(Print(h) + "-x-" + Print(w), model, provider, quality), h, w, n)
  {
    var names := NamesToCheck(Print(h) + "-x-" + Print(w), model, provider, quality);
    SpelledSize(size, h, w);
    PriceOfFirst(prices, names, h, w, n);
    assert ImageCost(prices, model, provider, quality, n, size)
        == PriceOf(FirstPrice(prices, names), Dimensions(h, w), n);
  }

  /** Exactly a size that is not two numerals around the separator is refused. */
  lemma BadSizeIff(prices: map<string, real>, model: string, provider: string, quality: string, n: int, size: string)
    ensures ImageCost(prices, model, provider, quality, n, size) == BadSize <==>
      forall a, b :: Normalise(size) == a + "-x-" + b ==> ParseInt(a).None? || ParseInt(b).None?
  {
    forall dims ensures ParseSize(size) == Some(dims) <==>
      exists a, b :: Normalise(size) == a + "-x-" + b
                  && ParseInt(a) == Some(dims.height) && ParseInt(b) == Some(dims.width)
    {
      SizeParsesIff(size, dims);
    }
    forall a, b | Normalise(size) == a + "-x-" + b && ParseInt(a).Some? && ParseInt(b).Some?
      ensures ParseSize(size).Some?
    {
      SizeParsesIff(size, Dimensions(ParseInt(a).value, ParseInt(b).value));
    }
  }
}
