/** Creating a custom value from the two input fields: JavaScript's
    `String.prototype.trim` and the placeholder for a blank description. */
module Text {
  import opened Wrappers
  import opened Placement

  /** The description given to a custom value whose description is blank
      ("Your own value"). */
  const Placeholder: string := "Ваша собственная ценность"

  /** The characters `trim` removes: ECMAScript's WhiteSpace (tab, vertical
      tab, form feed, no-break space, the byte-order mark and every Unicode
      space separator) and LineTerminator (LF, CR, U+2028, U+2029). */
  const Spaces: set<char> := {
    ' ', '\t', '\n', '\r', '\U{000B}', '\U{000C}', '\U{00A0}', '\U{FEFF}', '\U{1680}',
    '\U{2000}', '\U{2001}', '\U{2002}', '\U{2003}', '\U{2004}', '\U{2005}', '\U{2006}',
    '\U{2007}', '\U{2008}', '\U{2009}', '\U{200A}',
    '\U{2028}', '\U{2029}', '\U{202F}', '\U{205F}', '\U{3000}'}

  predicate IsSpace(c: char)
  {
    c in Spaces
  }

  predicate AllSpace(s: string)
  {
    forall k :: 0 <= k < |s| ==> IsSpace(s[k])
  }

  /** True when `s` is empty or neither starts nor ends with a space. */
  predicate Trimmed(s: string)
  {
    s == [] || (!IsSpace(s[0]) && !IsSpace(s[|s| - 1]))
  }

  /** `s` without its leading spaces. */
  function TrimStart(s: string): (r: string)
    ensures |r| <= |s| && r == s[|s| - |r|..]
    ensures AllSpace(s[..|s| - |r|])
    ensures r == [] || !IsSpace(r[0])
  {
    if s != [] && IsSpace(s[0]) then TrimStart(s[1..]) else s
  }

  /** `s` without its trailing spaces. */
  function TrimEnd(s: string): (r: string)
    ensures |r| <= |s| && r == s[..|r|]
    ensures AllSpace(s[|r|..])
    ensures r == [] || !IsSpace(r[|r| - 1])
  {
    if s != [] && IsSpace(s[|s| - 1]) then TrimEnd(s[..|s| - 1]) else s
  }

  /** A prefix `r` of a suffix `t` of `s` is the slice of `s` where it starts. */
  lemma SuffixPrefix(s: string, t: string, r: string)
    requires |t| <= |s| && t == s[|s| - |t|..] && |r| <= |t| && r == t[..|r|]
    ensures r == s[|s| - |t|..|s| - |t| + |r|] && t[|r|..] == s[|s| - |t| + |r|..]
  {
  }

  /** `s` is `r` with `k` spaces before it and nothing but spaces after it. */
  predicate PaddedAt(s: string, r: string, k: int)
  {
    0 <= k <= |s| - |r| && r == s[k..k + |r|] && AllSpace(s[..k]) && AllSpace(s[k + |r|..])
  }

  /** `s.trim()`. */
  function Trim(s: string): (r: string)
    ensures Trimmed(r) && |r| <= |s|
    ensures r == [] <==> AllSpace(s)
    ensures exists k :: PaddedAt(s, r, k)
  {
    PeelSlice(s, TrimStart(s), TrimEnd(TrimStart(s)));
    PeelEmpty(s, TrimStart(s), TrimEnd(TrimStart(s)));
    TrimEnd(TrimStart(s))
  }

  /** Cutting leading spaces from `s` to get `t`, then trailing spaces from
      `t` to get `r`, leaves a trimmed slice of `s` with only spaces around it. */
  lemma PeelSlice(s: string, t: string, r: string)
    requires |t| <= |s| && t == s[|s| - |t|..] && AllSpace(s[..|s| - |t|]) && (t == [] || !IsSpace(t[0]))
    requires |r| <= |t| && r == t[..|r|] && AllSpace(t[|r|..]) && (r == [] || !IsSpace(r[|r| - 1]))
    ensures PaddedAt(s, r, |s| - |t|) && Trimmed(r)
  {
    SuffixPrefix(s, t, r);
    if r != [] {
      assert r[0] == t[0];
    }
  }

  /** The same two cuts leave nothing exactly when `s` is all spaces. */
  lemma PeelEmpty(s: string, t: string, r: string)
    requires |t| <= |s| && t == s[|s| - |t|..] && AllSpace(s[..|s| - |t|]) && (t == [] || !IsSpace(t[0]))
    requires |r| <= |t| && r == t[..|r|] && AllSpace(t[|r|..])
    ensures r == [] <==> AllSpace(s)
  {
    if r == [] {
      assert t[|r|..] == t;
      assert s == s[..|s| - |t|] + t;
    }
    if t != [] {
      assert t[0] == s[|s| - |t|];
    }
  }

  lemma {:induction false} TrimStartPadded(a: string, t: string)
    requires AllSpace(a) && (t == [] || !IsSpace(t[0]))
    ensures TrimStart(a + t) == t
  {
    if a != [] {
      assert (a + t)[1..] == a[1..] + t;
      TrimStartPadded(a[1..], t);
    } else {
      assert a + t == t;
    }
  }

  lemma {:induction false} TrimEndPadded(t: string, c: string)
    requires AllSpace(c) && (t == [] || !IsSpace(t[|t| - 1]))
    ensures TrimEnd(t + c) == t
  {
    if c != [] {
      assert (t + c)[..|t + c| - 1] == t + c[..|c| - 1];
      TrimEndPadded(t, c[..|c| - 1]);
    } else {
      assert t + c == t;
    }
  }

  /** `trim` removes exactly the surrounding spaces: padding a trimmed text
      with spaces on both sides and trimming gives the text back. */
  lemma TrimPadded(a: string, t: string, c: string)
    requires AllSpace(a) && AllSpace(c) && Trimmed(t)
    ensures Trim(a + t + c) == t
  {
    if t == [] {
      assert a + t + c == a + c;
      assert AllSpace(a + c) by {
        forall k | 0 <= k < |a + c| ensures IsSpace((a + c)[k]) {
          if k >= |a| { assert (a + c)[k] == c[k - |a|]; }
        }
      }
    } else {
      assert a + t + c == a + (t + c);
      TrimStartPadded(a, t + c);
      TrimEndPadded(t, c);
    }
  }

  /** A text without surrounding spaces is its own trim. */
  lemma TrimOfTrimmed(t: string)
    requires Trimmed(t)
    ensures Trim(t) == t
  {
    assert AllSpace([]);
    assert [] + t == t && t + [] == t;
    TrimStartPadded([], t);
    TrimEndPadded(t, []);
  }

  /** Trimming twice is trimming once. */
  lemma TrimIdempotent(s: string)
    ensures Trim(Trim(s)) == Trim(s)
  {
    TrimOfTrimmed(Trim(s));
  }

  /** The id given to a value created at time `stamp`. */
  function CustomId(stamp: string): string
  {
    "custom-" + stamp
  }

  /** The value addCustomValue creates from the two input fields, or None
      when the trimmed name is empty. */
  function NewCustomValue(id: string, name: string, description: string): (r: Option<Value>)
    ensures r.None? <==> AllSpace(name)
    ensures r.Some? ==> r.value.id == id && r.value.name == Trim(name)
    ensures r.Some? ==> r.value.description == if AllSpace(description) then Placeholder else Trim(description)
  {
    if Trim(name) == [] then None
    else Some(Value(id, Trim(name), if Trim(description) == [] then Placeholder else Trim(description)))
  }

  /** A created value has a non-empty trimmed name and a non-empty trimmed
      description. */
  lemma CustomValueTrimmed(id: string, name: string, description: string)
    requires !AllSpace(name)
    ensures var v := NewCustomValue(id, name, description).value;
      v.name != [] && Trimmed(v.name) && v.description != [] && Trimmed(v.description)
  {
    if AllSpace(description) {
      assert Placeholder[0] == 'В' && Placeholder[|Placeholder| - 1] == 'ь';
      assert 'В' !in Spaces && 'ь' !in Spaces;
    }
  }
}
