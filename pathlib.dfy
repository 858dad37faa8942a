/** The parts of pathlib's PurePath the modelled code relies on: joining,
    the final component, its suffix and stem, and replacing the suffix. */
module PathLib {
  import opened Wrappers

  /** A path as its sequence of components. */
  datatype Path = Path(parts: seq<string>) {
    /** `Path(self, child)`. */
    function Join(child: string): Path {
      Path(parts + [child])
    }

    /** `.name`: the final component. */
    function Name(): string {
      if parts == [] then "" else parts[|parts| - 1]
    }

    /** `.parent`. */
    function Parent(): Path {
      if parts == [] then this else Path(parts[..|parts| - 1])
    }

    /** `.suffix`. */
    function Suffix(): string {
      SuffixOf(Name())
    }

    /** `.stem`. */
    function Stem(): string {
      StemOf(Name())
    }

    /** `.with_suffix(suffix)`: the same parent, the name's suffix replaced. */
    function WithSuffix(suffix: string): (p: Path)
      requires parts != []
      ensures p.Parent() == Parent() && p.Name() == Stem() + suffix
    {
      Path(parts[..|parts| - 1] + [Stem() + suffix])
    }
  }

  /** `s.rfind(c)`: the position of the last c in s. */
  function LastIndexOf(s: string, c: char): (r: Option<nat>)
    ensures r.Some? ==> r.value < |s| && s[r.value] == c &&
                        forall j :: r.value < j < |s| ==> s[j] != c
    ensures r.None? ==> forall j :: 0 <= j < |s| ==> s[j] != c
  {
    if s == [] then None
    else if s[|s| - 1] == c then Some(|s| - 1)
    else LastIndexOf(s[..|s| - 1], c)
  }

  /** Where the suffix of a name starts: at its last dot, unless that dot
      leads the name or ends it. */
  function SuffixStart(name: string): (r: Option<nat>)
    ensures r.Some? ==> 0 < r.value < |name| - 1 && name[r.value] == '.'
  {
    var i := LastIndexOf(name, '.');
    if i.Some? && 0 < i.value < |name| - 1 then i else None
  }

  /** The suffix of a name: from its last dot, or empty. */
  function SuffixOf(name: string): (suffix: string)
    ensures suffix == [] || (|suffix| >= 2 && suffix[0] == '.' && '.' !in suffix[1..])
  {
    var i := SuffixStart(name);
    if i.Some? then name[i.value..] else ""
  }

  /** The stem of a name: the name without its suffix. */
  function StemOf(name: string): (stem: string)
    ensures |stem| <= |name| && stem == name[..|stem|]
  {
    var i := SuffixStart(name);
    if i.Some? then name[..i.value] else name
  }

  /** A name is its stem followed by its suffix. */
  lemma StemThenSuffix(name: string)
    ensures StemOf(name) + SuffixOf(name) == name
  {
    var i := SuffixStart(name);
    if i.Some? {
      assert name[..i.value] + name[i.value..] == name;
    }
  }

  /** A name that ends in `.svs`, and has something before it, has the
      suffix `.svs`. */
  lemma SvsNameHasSvsSuffix(stem: string)
    requires stem != []
    ensures SuffixOf(stem + ".svs") == ".svs"
  {
    var name := stem + ".svs";
    assert name[|name| - 4] == '.';
    assert forall j :: |name| - 4 < j < |name| ==> name[j] != '.';
    var i := LastIndexOf(name, '.');
    assert i == Some(|name| - 4);
    assert name[|name| - 4..] == ".svs";
  }

  // ---------------------------------------------------------------------
  // str() of a non-negative int

  function DigitChar(d: nat): (c: char)
    requires d < 10
    ensures '0' <= c <= '9'
  {
    ('0' as int + d) as char
  }

  /** The decimal digits of n, as `str(n)` writes them. */
  function Decimal(n: nat): (s: string)
    ensures |s| >= 1
    ensures forall i :: 0 <= i < |s| ==> '0' <= s[i] <= '9'
    decreases n
  {
    if n < 10 then [DigitChar(n)] else Decimal(n / 10) + [DigitChar(n % 10)]
  }

  /** Distinct numbers are written differently. */
  lemma {:induction false} DecimalIsInjective(a: nat, b: nat)
    requires Decimal(a) == Decimal(b)
    ensures a == b
    decreases a
  {
    var sa, sb := Decimal(a), Decimal(b);
    if a >= 10 && b >= 10 {
      assert sa[..|sa| - 1] == Decimal(a / 10);
      assert sb[..|sb| - 1] == Decimal(b / 10);
      DecimalIsInjective(a / 10, b / 10);
      assert DigitChar(a % 10) == sa[|sa| - 1] == DigitChar(b % 10);
    } else if a >= 10 || b >= 10 {
      assert false;
    } else {
      assert DigitChar(a) == sa[0] == sb[0] == DigitChar(b);
    }
  }
}
