/** Reading the desired entries (`readIPsFromFile`, `isIPv4`, `isIPv6`).
    The input file is its sequence of lines; `strings.TrimSpace` and the
    success of `net.ParseCIDR` are the uninterpreted parameters `trim` and
    `parses`. */
module EntrySet {
  import opened Common

  datatype Family = IPv4 | IPv6

  /** `isIPv4`: the text parses as CIDR and contains a dot. */
  predicate IsIPv4(ip: string, parses: string -> bool)
  {
    parses(ip) && '.' in ip
  }

  /** `isIPv6`: the text parses as CIDR and contains a colon. */
  predicate IsIPv6(ip: string, parses: string -> bool)
  {
    parses(ip) && ':' in ip
  }

  /** The list a raw line is filed under, if any: blank lines are skipped,
      the v4 test runs first, and a line passing neither test is dropped. */
  function FamilyOf(line: string, trim: string -> string, parses: string -> bool): Option<Family>
  {
    var ip := trim(line);
    if ip == "" then None
    else if IsIPv4(ip, parses) then Some(IPv4)
    else if IsIPv6(ip, parses) then Some(IPv6)
    else None
  }

  /** The trimmed lines filed under `fam`, repeats included, in file order. */
  function Candidates(lines: seq<string>, trim: string -> string, parses: string -> bool, fam: Family): seq<string>
  {
    if |lines| == 0 then []
    else
      var prev := Candidates(lines[..|lines| - 1], trim, parses, fam);
      var last := lines[|lines| - 1];
      if FamilyOf(last, trim, parses) == Some(fam) then prev + [trim(last)] else prev
  }

  /** Reference definition of one output list: the family's lines, each kept
      at its first occurrence only. */
  function Listed(lines: seq<string>, trim: string -> string, parses: string -> bool, fam: Family): seq<string>
  {
    Dedup(Candidates(lines, trim, parses, fam))
  }

  /** One more line extends a family's list by its trimmed text exactly
      when the line is filed under that family and the text is new. */
  lemma ListedStep(lines: seq<string>, k: nat, trim: string -> string, parses: string -> bool, fam: Family)
    requires k < |lines|
    ensures var x := trim(lines[k]);
            var before := Listed(lines[..k], trim, parses, fam);
            Listed(lines[..k + 1], trim, parses, fam) ==
              if FamilyOf(lines[k], trim, parses) == Some(fam) && x !in Elems(before) then before + [x] else before
  {
    var p := lines[..k + 1];
    assert p[..|p| - 1] == lines[..k] && p[|p| - 1] == lines[k];
    var c := Candidates(lines[..k], trim, parses, fam);
    var x := trim(lines[k]);
    if FamilyOf(lines[k], trim, parses) == Some(fam) {
      var cx := c + [x];
      assert cx[..|cx| - 1] == c && cx[|cx| - 1] == x;
      assert x in Dedup(c) <==> x in Elems(Dedup(c));
    }
  }

  /** The seen-set check of lines 73-76 (and 78-81): when the line is filed
      here and its text is new, record it and append it. */
  method Admit(seen: set<string>, list: seq<string>, ip: string, filed: bool)
    returns (seen': set<string>, list': seq<string>)
    requires seen == Elems(list)
    ensures list' == if filed && ip !in Elems(list) then list + [ip] else list
    ensures seen' == Elems(list')
  {
    seen', list' := seen, list;
    if filed && ip !in seen {
      seen' := seen + {ip};
      ElemsAppend(list, [ip]);
      list' := list + [ip];
    }
  }

  /** `readIPsFromFile` after the file is open: one pass over the lines with
      a seen-set per family; a blank line is skipped, a v4 line is filed
      under v4, any other v6 line under v6. */
  method ReadIPs(lines: seq<string>, trim: string -> string, parses: string -> bool)
    returns (ipv4s: seq<string>, ipv6s: seq<string>)
    ensures ipv4s == Listed(lines, trim, parses, IPv4)
    ensures ipv6s == Listed(lines, trim, parses, IPv6)
  {
    var seen4: set<string> := {};
    var seen6: set<string> := {};
    ipv4s, ipv6s := [], [];
    for k := 0 to |lines|
      invariant ipv4s == Listed(lines[..k], trim, parses, IPv4) && seen4 == Elems(ipv4s)
      invariant ipv6s == Listed(lines[..k], trim, parses, IPv6) && seen6 == Elems(ipv6s)
    {
      ListedStep(lines, k, trim, parses, IPv4);
      ListedStep(lines, k, trim, parses, IPv6);
      var ip := trim(lines[k]);
      var v4 := ip != "" && IsIPv4(ip, parses);
      var v6 := ip != "" && !v4 && IsIPv6(ip, parses);
      seen4, ipv4s := Admit(seen4, ipv4s, ip, v4);
      seen6, ipv6s := Admit(seen6, ipv6s, ip, v6);
    }
    assert lines[..|lines|] == lines;
  }

  lemma {:induction false} CandidatesMembership(lines: seq<string>, trim: string -> string, parses: string -> bool,
                                                 fam: Family, x: string)
    ensures x in Candidates(lines, trim, parses, fam) <==>
      exists k | 0 <= k < |lines| :: trim(lines[k]) == x && FamilyOf(lines[k], trim, parses) == Some(fam)
  {
    if |lines| > 0 {
      var p := lines[..|lines| - 1];
      CandidatesMembership(p, trim, parses, fam, x);
      assert forall k | 0 <= k < |p| :: p[k] == lines[k];
    }
  }

  /** What each output list holds: a value is in the v4 list exactly when
      some line trims to it, it is not blank, it parses and it contains a
      dot; in the v6 list exactly when some line trims to it, it is not blank,
      it parses, it contains a colon and no dot (the v4 test wins). */
  lemma ListedMembership(lines: seq<string>, trim: string -> string, parses: string -> bool, x: string)
    ensures x in Listed(lines, trim, parses, IPv4) <==>
      (exists k | 0 <= k < |lines| :: trim(lines[k]) == x) && x != "" && parses(x) && '.' in x
    ensures x in Listed(lines, trim, parses, IPv6) <==>
      (exists k | 0 <= k < |lines| :: trim(lines[k]) == x) && x != "" && parses(x) && ':' in x && '.' !in x
  {
    var c4 := Candidates(lines, trim, parses, IPv4);
    var c6 := Candidates(lines, trim, parses, IPv6);
    CandidatesMembership(lines, trim, parses, IPv4, x);
    CandidatesMembership(lines, trim, parses, IPv6, x);
    assert x in Dedup(c4) <==> x in c4 by {
      assert x in Dedup(c4) <==> x in Elems(Dedup(c4));
    }
    assert x in Dedup(c6) <==> x in c6 by {
      assert x in Dedup(c6) <==> x in Elems(Dedup(c6));
    }
  }

  /** A trimmed line that does not parse, or parses but holds neither a dot
      nor a colon, lands in neither list. */
  lemma Dropped(lines: seq<string>, trim: string -> string, parses: string -> bool, x: string)
    requires !parses(x) || ('.' !in x && ':' !in x)
    ensures x !in Listed(lines, trim, parses, IPv4)
    ensures x !in Listed(lines, trim, parses, IPv6)
  {
    ListedMembership(lines, trim, parses, x);
  }

  /** No value lands in both lists. */
  lemma FamiliesDisjoint(lines: seq<string>, trim: string -> string, parses: string -> bool)
    ensures Elems(Listed(lines, trim, parses, IPv4)) !! Elems(Listed(lines, trim, parses, IPv6))
  {
    forall x | x in Listed(lines, trim, parses, IPv4)
      ensures x !in Listed(lines, trim, parses, IPv6)
    {
      ListedMembership(lines, trim, parses, x);
    }
  }

  /** Each list is duplicate-free and in first-seen order of the family's
      trimmed lines. */
  lemma ListedFirstSeen(lines: seq<string>, trim: string -> string, parses: string -> bool, fam: Family)
    ensures NoDups(Listed(lines, trim, parses, fam))
    ensures var c := Candidates(lines, trim, parses, fam);
            var l := Listed(lines, trim, parses, fam);
            forall i, j | 0 <= i < j < |l| :: FirstIndex(c, l[i]) < FirstIndex(c, l[j])
  {
    DedupFirstSeenOrder(Candidates(lines, trim, parses, fam));
  }

  /** A worked file: a repeated v4 line, a v6 line, a word and a blank line
      give one entry per family. The word is dropped whatever the parser
      says of it, since it holds neither a dot nor a colon. */
  lemma SampleFile(parses: string -> bool)
    requires parses("10.0.0.0/24") && parses("2001:db8::/32")
    ensures var lines := ["10.0.0.0/24", "10.0.0.0/24", "2001:db8::/32", "junk", ""];
            Listed(lines, s => s, parses, IPv4) == ["10.0.0.0/24"] &&
            Listed(lines, s => s, parses, IPv6) == ["2001:db8::/32"]
  {
    var v4, v6 := "10.0.0.0/24", "2001:db8::/32";
    var lines := [v4, v4, v6, "junk", ""];
    var id := (s: string) => s;
    SampleCandidates(id, parses);
    assert Dedup([v4]) == [v4];
    assert [v4, v4][..1] == [v4];
  }

  /** The candidates of the worked file, line by line. */
  lemma SampleCandidates(trim: string -> string, parses: string -> bool)
    requires parses("10.0.0.0/24") && parses("2001:db8::/32")
    requires forall s :: trim(s) == s
    ensures var lines := ["10.0.0.0/24", "10.0.0.0/24", "2001:db8::/32", "junk", ""];
            && Candidates(lines, trim, parses, IPv4) == ["10.0.0.0/24", "10.0.0.0/24"]
            && Candidates(lines, trim, parses, IPv6) == ["2001:db8::/32"]
  {
    var v4, v6, word := "10.0.0.0/24", "2001:db8::/32", "junk";
    var lines := [v4, v4, v6, word, ""];
    SampleFamilies(trim, parses);
    var p1, p2, p3, p4 := lines[..1], lines[..2], lines[..3], lines[..4];
    assert p4[..3] == p3 && p3[..2] == p2 && p2[..1] == p1 && p1[..0] == [];
    forall fam: Family
      ensures Candidates(lines, trim, parses, fam) == Candidates(p3, trim, parses, fam)
    {
      assert Candidates(lines, trim, parses, fam) == Candidates(p4, trim, parses, fam);
    }
    assert Candidates(p1, trim, parses, IPv4) == [v4];
    assert Candidates(p2, trim, parses, IPv4) == [v4, v4];
    assert Candidates(p1, trim, parses, IPv6) == [];
    assert Candidates(p2, trim, parses, IPv6) == [];
  }

  /** How each line of the worked file is filed. */
  lemma SampleFamilies(trim: string -> string, parses: string -> bool)
    requires parses("10.0.0.0/24") && parses("2001:db8::/32")
    requires forall s :: trim(s) == s
    ensures FamilyOf("10.0.0.0/24", trim, parses) == Some(IPv4)
    ensures FamilyOf("2001:db8::/32", trim, parses) == Some(IPv6)
    ensures FamilyOf("junk", trim, parses) == None
    ensures FamilyOf("", trim, parses) == None
  {
    var v4, v6, word := "10.0.0.0/24", "2001:db8::/32", "junk";
    assert '.' in v4 by { assert v4[2] == '.'; }
    assert '.' !in v6 && ':' in v6 by { assert v6[4] == ':'; }
    assert '.' !in word && ':' !in word;
  }
}
