/** The constructor that reads an IP address from text. */
module IpAddress {
  import opened Common
  import opened IpText

  // Sixteen bytes, and a mask whose cleared bits mark bytes that may be anything.
  datatype Ip = Ip(v6: bool, pieces: seq<nat>, mask: seq<bool>)

  datatype Outcome = Ok(ip: Ip) | Throws

  datatype Scan = At(y: nat, pieces: seq<nat>, mask: seq<bool>) | Bad

  function Put<T>(s: seq<T>, i: nat, v: T): (r: seq<T>)
    ensures |r| == |s|
  {
    if i < |s| then s[i := v] else s
  }

  function Zeros(n: nat): (s: seq<nat>)
    ensures |s| == n
  {
    seq(n, _ => 0)
  }

  function Trues(n: nat): (s: seq<bool>)
    ensures |s| == n
  {
    seq(n, _ => true)
  }

  function Zeroed(s: seq<nat>, from: nat, n: nat): (r: seq<nat>)
    ensures |r| == |s|
  {
    seq(|s|, i requires 0 <= i < |s| => if from <= i < from + n then 0 else s[i])
  }

  // std::setw(4) with fill '0'
  function Padded(part: string): string {
    if |part| >= 4 then part else seq(4 - |part|, _ => '0') + part
  }

  // One to four dotted numbers from the i-th on.
  function Octets(a: Scan, subs: seq<string>, i: nat): Scan
    decreases |subs| - i
  {
    if a.Bad? || i >= |subs| then a
    else if subs[i] == "*" then Octets(a.(mask := Put(a.mask, a.y + i, false)), subs, i + 1)
    else
      var v := U16(Strtol(subs[i], 10));
      if v > 255 then Bad else Octets(a.(pieces := Put(a.pieces, a.y + i, v)), subs, i + 1)
  }

  // What comes before a nested IPv4 address: zeros, and zeros or 255 in bytes 10 and 11.
  predicate MayNest(pieces: seq<nat>) {
    && |pieces| == 16
    && (forall k :: 0 <= k < 10 ==> pieces[k] == 0)
    && (pieces[10] == 0 || pieces[10] == 255) && (pieces[11] == 0 || pieces[11] == 255)
  }

  function Nested(a: Scan, part: string): Scan
    requires a.At?
  {
    var subs := Split(part, '.', true);
    if |subs| != 4 || !MayNest(a.pieces) then Bad else Octets(a, subs, 0)
  }

  function PartStep(a: Scan, part: string, last: bool, omitted: nat): Scan
    requires a.At?
  {
    if part == "*" then a.(y := a.y + 2, mask := Put(Put(a.mask, a.y, false), a.y + 1, false))
    else if part == "" then a.(y := a.y + 2 * omitted, pieces := Zeroed(a.pieces, a.y, 2 * omitted))
    else
      var p := Padded(part);
      if |p| == 4 then
        a.(y := a.y + 2, pieces := Put(Put(a.pieces, a.y, U16(Strtol(p[..2], 16))), a.y + 1, U16(Strtol(p[2..], 16))))
      else if '.' !in p || a.y != 12 || !last then Bad
      else Nested(a, p)
  }

  function Parts(a: Scan, parts: seq<string>, omitted: nat): Scan
    decreases |parts|
  {
    if a.Bad? || parts == [] then a else Parts(PartStep(a, parts[0], |parts| == 1, omitted), parts[1..], omitted)
  }

  function Empties(parts: seq<string>): (n: nat)
    ensures n <= |parts|
  {
    if parts == [] then 0 else (if parts[0] == "" then 1 else 0) + Empties(parts[1..])
  }

  // The parts to read and how many groups an empty part stands for.
  function Prepared(parts: seq<string>): Option<(seq<string>, nat)> {
    if |parts| > 8 || parts == [] then None
    else
      var omitted := 9 - |parts|;
      if Empties(parts) <= 1 then Some((parts, omitted))
      else
        var less := if '.' in parts[|parts| - 1] then omitted - 1 else omitted;
        if Empties(parts) == 2 && parts[0] == "" && parts[1] == "" then Some((parts[1..], less + 1)) else None
  }

  const START: Scan := At(0, Zeros(16), Trues(16))

  function Finished(a: Scan, v6: bool): Outcome {
    match a case Bad => Throws case At(_, pieces, mask) => Ok(Ip(v6, pieces, mask))
  }

  function Parsed(ip: string): Outcome {
    if ':' in ip then
      match Prepared(Split(ip, ':', false))
      case None => Throws
      case Some(p) => Finished(Parts(START, p.0, p.1), true)
    else
      var parts := Split(ip, '.', true);
      if |parts| != 4 then Throws else Finished(Octets(START.(y := 12), parts, 0), false)
  }

  // How many groups some parts stand for.
  function Weight(parts: seq<string>, omitted: nat): nat {
    if parts == [] then 0 else (if parts[0] == "" then omitted else 1) + Weight(parts[1..], omitted)
  }

  lemma {:induction false} WeightIs(parts: seq<string>, omitted: nat)
    ensures Weight(parts, omitted) == |parts| - Empties(parts) + Empties(parts) * omitted
  {
    if parts != [] {
      WeightIs(parts[1..], omitted);
    }
  }

  // The cursor has room for all groups: there are at most eight.
  lemma RoomForAll(parts: seq<string>)
    requires Prepared(parts).Some?
    ensures Weight(Prepared(parts).value.0, Prepared(parts).value.1) <= 8
  {
    var p := Prepared(parts).value;
    WeightIs(p.0, p.1);
    if Empties(parts) == 2 {
      assert Empties(p.0) == 1;
    }
  }

  // The object ---------------------------------------------------------------

  // string_split
  method StringSplit(s: string, sep: char, collapse: bool) returns (r: seq<string>)
    ensures r == Split(s, sep, collapse)
  {
    hide Find, Split;
    r := [];
    var rest := s;
    SplitNothing(sep, collapse);
    while rest != ""
      invariant r + Split(rest, sep, collapse) == Split(s, sep, collapse)
      decreases |rest|
    {
      var k := Find(rest, sep);
      var token := rest[..k];
      SplitNext(rest, sep, collapse);
      if !collapse || token != "" {
        r := r + [token];
      }
      rest := if k == |rest| then "" else rest[k + 1..];
    }
  }

  lemma SplitNothing(sep: char, collapse: bool)
    ensures Split("", sep, collapse) == []
  {
  }

  lemma SomeTokens(s: string, sep: char)
    requires s != ""
    ensures Split(s, sep, false) != []
  {
  }

  lemma SplitNext(s: string, sep: char, collapse: bool)
    requires s != ""
    ensures Find(s, sep) <= |s|
    ensures var k := Find(s, sep);
            var rest := if k == |s| then "" else s[k + 1..];
            Split(s, sep, collapse) == (if collapse && s[..k] == "" then [] else [s[..k]]) + Split(rest, sep, collapse)
  {
    var k := Find(s, sep);
    var rest := if k == |s| then "" else s[k + 1..];
    var more := Tokens(rest, sep);
    assert ([s[..k]] + more)[1..] == more;
  }

  class IpRepresentation {
    var v6: bool
    const pieces: array<nat>
    const mask: array<bool>

    ghost predicate Valid()
      reads this, pieces, mask
    {
      pieces.Length == 16 && mask.Length == 16
    }

    ghost function Now(y: nat): Scan
      reads this, pieces, mask
    {
      At(y, pieces[..], mask[..])
    }

    constructor ()
      ensures Valid() && fresh(pieces) && fresh(mask) && Now(0) == START
    {
      pieces := new nat[16](_ => 0);
      mask := new bool[16](_ => true);
      v6 := false;
    }

    // The constructor from text; false stands for the exception it throws.
    method Read(ip: string) returns (ok: bool)
      requires Valid() && Now(0) == START
      modifies this, pieces, mask
      ensures Parsed(ip) == if ok then Ok(Ip(v6, pieces[..], mask[..])) else Throws
    {
      hide Parts, Octets, Prepared, Split;
      if ':' in ip {
        v6 := true;
        var parts := StringSplit(ip, ':', false);
        SomeTokens(ip, ':');
        var omitted;
        ok, parts, omitted := Prepare(parts);
        if ok {
          ok := ReadParts(parts, omitted);
        }
      } else {
        v6 := false;
        var parts := StringSplit(ip, '.', true);
        ok := |parts| == 4;
        if ok {
          ok := ReadOctets(12, parts);
        }
      }
    }

    method Prepare(parts: seq<string>) returns (ok: bool, rest: seq<string>, omitted: nat)
      requires parts != []
      ensures ok == Prepared(parts).Some?
      ensures ok ==> (rest, omitted) == Prepared(parts).value && Weight(rest, omitted) <= 8
    {
      ok, rest, omitted := |parts| <= 8, parts, 0;
      if !ok {
        return;
      }
      omitted := 8 - (|parts| - 1);
      var empty := CountEmpty(parts);
      if empty > 1 {
        if '.' in parts[|parts| - 1] {
          omitted := omitted - 1;
        }
        if empty == 2 && parts[0] == "" && parts[1] == "" {
          omitted := omitted + 1;
          rest := parts[1..];
        } else {
          ok := false;
        }
      }
      if ok {
        RoomForAll(parts);
      }
    }

    method CountEmpty(parts: seq<string>) returns (n: nat)
      ensures n == Empties(parts)
    {
      n := 0;
      for i := 0 to |parts|
        invariant n + Empties(parts[i..]) == Empties(parts)
      {
        assert parts[i..][1..] == parts[i + 1..];
        if |parts[i]| == 0 {
          n := n + 1;
        }
      }
    }

    method ReadParts(parts: seq<string>, omitted: nat) returns (ok: bool)
      requires Valid() && Weight(parts, omitted) <= 8
      modifies pieces, mask
      ensures Parts(old(Now(0)), parts, omitted).At? == ok
      ensures ok ==> Parts(old(Now(0)), parts, omitted) == Now(Parts(old(Now(0)), parts, omitted).y)
    {
      hide PartStep;
      var y: nat := 0;
      ok := true;
      for i := 0 to |parts|
        invariant ok && y + 2 * Weight(parts[i..], omitted) <= 16
        invariant Parts(old(Now(0)), parts, omitted) == Parts(Now(y), parts[i..], omitted)
      {
        assert parts[i..][1..] == parts[i + 1..];
        PartRoom(Now(y), parts[i], i == |parts| - 1, omitted);
        ok, y := ReadPart(parts[i], y, i == |parts| - 1, omitted);
        if !ok {
          return;
        }
      }
    }

    method ReadPart(part: string, at: nat, last: bool, omitted: nat) returns (ok: bool, y: nat)
      requires Valid() && at + 2 * (if part == "" then omitted else 1) <= 16
      modifies pieces, mask
      ensures PartStep(old(Now(at)), part, last, omitted) == if ok then Now(y) else Bad
    {
      hide Strtol, Octets, Split;
      ok, y := true, at;
      if part == "*" {
        mask[y] := false;
        mask[y + 1] := false;
        y := y + 2;
      } else if part == "" {
        y := SkipOmitted(y, omitted);
      } else {
        var p := Padded(part);
        if |p| == 4 {
          pieces[y] := U16(Strtol(p[..2], 16));
          pieces[y + 1] := U16(Strtol(p[2..], 16));
          y := y + 2;
        } else {
          ok := '.' in p && y == 12 && last;
          if ok {
            ok := ReadNested(p);
          }
        }
      }
    }

    method SkipOmitted(at: nat, omitted: nat) returns (y: nat)
      requires Valid() && at + 2 * omitted <= 16
      modifies pieces
      ensures y == at + 2 * omitted && pieces[..] == Zeroed(old(pieces[..]), at, 2 * omitted)
    {
      y := at;
      for k := 0 to omitted
        invariant y == at + 2 * k && pieces[..] == Zeroed(old(pieces[..]), at, 2 * k)
      {
        pieces[y] := 0;
        pieces[y + 1] := 0;
        y := y + 2;
      }
    }

    method ReadNested(part: string) returns (ok: bool)
      requires Valid()
      modifies pieces, mask
      ensures Nested(old(Now(12)), part) == if ok then Now(12) else Bad
    {
      hide Octets, Split;
      var subs := StringSplit(part, '.', true);
      ok := |subs| == 4;
      if ok {
        for k := 0 to 10
          invariant forall j :: 0 <= j < k ==> pieces[j] == 0
        {
          if pieces[k] != 0 {
            return false;
          }
        }
        ok := (pieces[10] == 0 || pieces[10] == 255) && (pieces[11] == 0 || pieces[11] == 255);
        if ok {
          ok := ReadOctets(12, subs);
        }
      }
    }

    method ReadOctets(at: nat, subs: seq<string>) returns (ok: bool)
      requires Valid() && at + |subs| <= 16
      modifies pieces, mask
      ensures Octets(old(Now(at)), subs, 0) == if ok then Now(at) else Bad
    {
      hide Strtol;
      ok := true;
      for i := 0 to |subs|
        invariant ok && Octets(old(Now(at)), subs, 0) == Octets(Now(at), subs, i)
      {
        if subs[i] != "*" {
          pieces[at + i] := U16(Strtol(subs[i], 10));
          if pieces[at + i] > 255 {
            return false;
          }
        } else {
          mask[at + i] := false;
        }
      }
    }
  }

  lemma PartRoom(a: Scan, part: string, last: bool, omitted: nat)
    requires a.At?
    ensures var b := PartStep(a, part, last, omitted); b.At? ==> b.y <= a.y + 2 * (if part == "" then omitted else 1)
  {
    hide Strtol, Split;
    if '.' in Padded(part) && a.y == 12 {
      OctetsStay(a, Split(Padded(part), '.', true), 0);
    }
  }

  lemma {:induction false} OctetsStay(a: Scan, subs: seq<string>, i: nat)
    requires a.At?
    ensures Octets(a, subs, i).At? ==> Octets(a, subs, i).y == a.y
    decreases |subs| - i
  {
    hide Strtol;
    if i < |subs| {
      if subs[i] == "*" {
        OctetsStay(a.(mask := Put(a.mask, a.y + i, false)), subs, i + 1);
      } else {
        OctetsStay(a.(pieces := Put(a.pieces, a.y + i, U16(Strtol(subs[i], 10)))), subs, i + 1);
      }
    }
  }
}
