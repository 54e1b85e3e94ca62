/** What the normal forms of names, kinds and identifiers are, character by character. */
module Naming {
  import opened Text
  import opened Tables

  const UPPER := "ABCDEFGHIJKLMNOPQRSTUVWXYZ"
  const LOWER := "abcdefghijklmnopqrstuvwxyz"

  /** The code points of the Unicode property White_Space. */
  const WHITE: set<int> := {0x09, 0x0a, 0x0b, 0x0c, 0x0d, 0x20, 0x85, 0xa0, 0x1680, 0x2000, 0x2001, 0x2002, 0x2003,
    0x2004, 0x2005, 0x2006, 0x2007, 0x2008, 0x2009, 0x200a, 0x2028, 0x2029, 0x202f, 0x205f, 0x3000}

  lemma SpacesAreWhite(c: char)
    ensures IsSpace(c) <==> c as int in WHITE
  {
  }

  /** r is s without a prefix and a suffix of dropped characters, and keeps everything between kept ones. */
  ghost predicate CutOut(r: string, s: string, dropped: char -> bool) {
    exists i, j :: IsCut(r, s, dropped, i, j)
  }

  ghost predicate IsCut(r: string, s: string, dropped: char -> bool, i: int, j: int) {
    0 <= i <= j <= |s| && r == s[i..j] && (forall k | 0 <= k < i || j <= k < |s| :: dropped(s[k])) &&
    (r != [] ==> !dropped(r[0]) && !dropped(r[|r| - 1]))
  }

  lemma {:induction false} CutFront(s: string, dropped: char -> bool, r: string, i: int, j: int)
    requires s != [] && dropped(s[0]) && IsCut(r, s[1..], dropped, i, j)
    ensures IsCut(r, s, dropped, i + 1, j + 1)
  {
    forall k | 0 <= k < i + 1 || j + 1 <= k < |s| ensures dropped(s[k]) {
      if k > 0 { assert s[k] == s[1..][k - 1]; }
    }
    assert s[1..][i..j] == s[i + 1..j + 1];
  }

  lemma {:induction false} CutBack(s: string, dropped: char -> bool, r: string, i: int, j: int)
    requires s != [] && dropped(s[|s| - 1]) && IsCut(r, s[..|s| - 1], dropped, i, j)
    ensures IsCut(r, s, dropped, i, j)
  {
    forall k | 0 <= k < i || j <= k < |s| ensures dropped(s[k]) {
      if k < |s| - 1 { assert s[k] == s[..|s| - 1][k]; }
    }
    assert s[..|s| - 1][i..j] == s[i..j];
  }

  lemma {:induction false} TrimRightCuts(s: string)
    requires s != [] ==> !IsSpace(s[0])
    ensures IsCut(TrimRight(s), s, IsSpace, 0, |TrimRight(s)|)
  {
    if s != [] && IsSpace(s[|s| - 1]) {
      TrimRightCuts(s[..|s| - 1]);
      CutBack(s, IsSpace, TrimRight(s), 0, |TrimRight(s)|);
    }
  }

  lemma {:induction false} TrimCuts(s: string) returns (i: int, j: int)
    ensures IsCut(Trim(s), s, IsSpace, i, j)
  {
    if s != [] && IsSpace(s[0]) {
      i, j := TrimCuts(s[1..]);
      CutFront(s, IsSpace, Trim(s), i, j);
      i, j := i + 1, j + 1;
    } else {
      TrimRightCuts(s);
      i, j := 0, |TrimRight(s)|;
    }
  }

  /** Trimming removes the white space around a text and nothing else. */
  lemma TrimExact(s: string)
    ensures CutOut(Trim(s), s, IsSpace)
  {
    var i, j := TrimCuts(s);
  }

  /** Lower-casing maps the ASCII capitals to their small letters and keeps everything else. */
  lemma LowerExact(s: string, i: nat, k: nat)
    requires i < |s| && k < 26
    ensures s[i] == UPPER[k] ==> Lower(s)[i] == LOWER[k]
    ensures s[i] !in UPPER ==> Lower(s)[i] == s[i]
  {
    assert forall n: nat | n < 26 :: UPPER[n] as int == 65 + n && LOWER[n] as int == 97 + n;
    if 'A' <= s[i] <= 'Z' { assert UPPER[s[i] as int - 65] == s[i]; }
  }

  /** A kind is trimmed, lower-cased, and written with underscores for dashes. */
  lemma KindExact(v: string, i: nat)
    requires i < |Trim(v)|
    ensures |NormalizeKind(v)| == |Trim(v)|
    ensures NormalizeKind(v)[i] == if Trim(v)[i] == '-' then '_' else Lower(Trim(v))[i]
  {
    if Lower(Trim(v))[i] == '-' { assert Trim(v)[i] == '-'; }
  }

  /** The names of the kinds. */
  lemma KindNames()
    ensures GROUP == "group" && AUTH_ID == "auth_id" && AUTH_FILE == "auth_file" &&
      PROVIDER_INSTANCE == "provider_instance"
  {
  }

  /** n is where a ends inside b or the two first differ, with a's character the smaller. */
  predicate FirstDifference(a: string, b: string, n: nat) {
    n <= |a| && n < |b| && a[..n] == b[..n] && (n < |a| ==> a[n] < b[n])
  }

  /** The string order is decided at the first difference. */
  lemma {:induction false} LessExact(a: string, b: string)
    ensures Less(a, b) <==> exists n: nat :: FirstDifference(a, b, n)
  {
    if a == [] {
      if b != [] { assert FirstDifference(a, b, 0); }
    } else if b != [] {
      LessExact(a[1..], b[1..]);
      if a[0] < b[0] {
        assert FirstDifference(a, b, 0);
      } else if a[0] == b[0] {
        if n: nat :| FirstDifference(a[1..], b[1..], n) {
          assert a[..n + 1] == [a[0]] + a[1..][..n] && b[..n + 1] == [b[0]] + b[1..][..n];
          assert FirstDifference(a, b, n + 1);
        }
        if n: nat :| FirstDifference(a, b, n) {
          assert n > 0;
          assert a[1..][..n - 1] == a[..n][1..] && b[1..][..n - 1] == b[..n][1..];
          assert FirstDifference(a[1..], b[1..], n - 1);
        }
      } else {
        forall n: nat ensures !FirstDifference(a, b, n) {
          if n > 0 && n <= |a| && n < |b| { assert a[..n][0] == a[0] && b[..n][0] == b[0]; }
        }
      }
    }
  }

  function IsColon(): char -> bool {
    c => c == ':'
  }

  lemma {:induction false} StripColonsCuts(s: string) returns (i: int, j: int)
    ensures IsCut(StripColons(s), s, IsColon(), i, j)
  {
    if s != [] && s[0] == ':' {
      i, j := StripColonsCuts(s[1..]);
      CutFront(s, IsColon(), StripColons(s), i, j);
      i, j := i + 1, j + 1;
    } else if s != [] && s[|s| - 1] == ':' {
      i, j := StripColonsCuts(s[..|s| - 1]);
      CutBack(s, IsColon(), StripColons(s), i, j);
    } else {
      i, j := 0, |s|;
    }
  }

  /** What identifies a provider instance: its account, else its index, else its address, else whatever is known. */
  lemma InstanceIDExact(normalizeURL: string -> string, provider: string, authID: string, authIndex: string,
        baseURL: string)
    ensures var p, a, x, u := NormalizeProvider(provider), Trim(authID), Trim(authIndex), normalizeURL(baseURL);
      var id := ProviderInstanceID(normalizeURL, provider, authID, authIndex, baseURL);
      (p != "" && a != "" ==> id == p + ":" + a) &&
      (p != "" && a == "" && x != "" ==> id == p + ":idx:" + x) &&
      (p != "" && a == x == "" && u != "" ==> id == p + ":url:" + u) &&
      (p == "" || a == x == u == "" ==> CutOut(id, p + ":" + a + ":" + x + ":" + u, IsColon()))
  {
    var p, a, x, u := NormalizeProvider(provider), Trim(authID), Trim(authIndex), normalizeURL(baseURL);
    var i, j := StripColonsCuts(p + ":" + a + ":" + x + ":" + u);
  }

  /** The attribute is set to something that is not blank. */
  predicate Says(c: Candidate, key: string) {
    key in c.attributes && Trim(c.attributes[key]) != ""
  }

  /** Where a candidate's index and address are read from, in order of preference. */
  lemma AttributesExact(c: Candidate)
    ensures Says(c, "auth_index") ==> AuthIndexOf(c) == Trim(c.attributes["auth_index"])
    ensures !Says(c, "auth_index") && Says(c, "index") ==> AuthIndexOf(c) == Trim(c.attributes["index"])
    ensures !Says(c, "auth_index") && !Says(c, "index") ==> AuthIndexOf(c) == ""
    ensures Says(c, "base_url") ==> BaseURLOf(c) == Trim(c.attributes["base_url"])
    ensures !Says(c, "base_url") && Says(c, "url") ==> BaseURLOf(c) == Trim(c.attributes["url"])
    ensures !Says(c, "base_url") && !Says(c, "url") && Says(c, "endpoint") ==>
      BaseURLOf(c) == Trim(c.attributes["endpoint"])
    ensures !Says(c, "base_url") && !Says(c, "url") && !Says(c, "endpoint") ==> BaseURLOf(c) == ""
  {
    hide Trim;
  }

  /** Distinct values are listed in the order in which they first appear: what later values add goes to the end. */
  lemma {:induction false} UniqueInOrder(values: seq<string>, n: nat)
    requires n <= |values|
    ensures Unique(values[..n]) <= Unique(values)
    decreases |values| - n
  {
    if n < |values| {
      UniqueInOrder(values, n + 1);
      assert values[..n + 1][..n] == values[..n];
    } else {
      assert values[..n] == values;
    }
  }
}
