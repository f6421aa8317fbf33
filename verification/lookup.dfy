/**
 Candidate extraction from the inventory lookup (rackhd.go, `Create`).
 The payload is a list of arbitrary JSON values; the driver keeps, in payload
 order, the `ipAddress` attribute of every entry that is an attribute map.
 */
module Lookup {

  const IpAddressKey := "ipAddress"

  /** One payload entry: an attribute map, or any other JSON value. */
  datatype Entry = Record(attrs: map<string, string>) | NotAMap

  predicate HasAddress(e: Entry) {
    e.Record? && IpAddressKey in e.attrs
  }

  /** What one entry contributes: its address if it has one, else nothing. */
  function AddressOf(e: Entry): (ips: seq<string>)
    ensures |ips| <= 1
    ensures |ips| == 1 <==> HasAddress(e)
    ensures HasAddress(e) ==> ips[0] == e.attrs[IpAddressKey]
  {
    if HasAddress(e) then [e.attrs[IpAddressKey]] else []
  }

  /** The candidate addresses of a payload, in payload order, duplicates kept. */
  function Candidates(payload: seq<Entry>): (ips: seq<string>)
    ensures |ips| <= |payload|
  {
    if |payload| == 0 then []
    else Candidates(payload[..|payload| - 1]) + AddressOf(payload[|payload| - 1])
  }

  /** Extraction distributes over concatenation of payloads: nothing is reordered or merged. */
  lemma {:induction false} CandidatesAppend(a: seq<Entry>, b: seq<Entry>)
    ensures Candidates(a + b) == Candidates(a) + Candidates(b)
    decreases |b|
  {
    if |b| > 0 {
      var b' := b[..|b| - 1];
      assert (a + b)[..|a + b| - 1] == a + b';
      CandidatesAppend(a, b');
    } else {
      assert a + b == a;
    }
  }

  /**
   Entry `i`'s address sits at position `|Candidates(payload[..i])|` of the
   candidates, and entries without an address contribute nothing: so the
   candidates are the entries' addresses in payload order, one per entry.
   */
  lemma CandidatePosition(payload: seq<Entry>, i: nat)
    requires i < |payload|
    ensures |Candidates(payload[..i + 1])| == |Candidates(payload[..i])| + |AddressOf(payload[i])|
    ensures HasAddress(payload[i]) ==>
      |Candidates(payload[..i])| < |Candidates(payload)|
      && Candidates(payload)[|Candidates(payload[..i])|] == payload[i].attrs[IpAddressKey]
  {
    assert payload[..i + 1][..i] == payload[..i];
    assert payload == payload[..i + 1] + payload[i + 1..];
    CandidatesAppend(payload[..i + 1], payload[i + 1..]);
  }

  /** Earlier entries' addresses come strictly before later entries' addresses. */
  lemma CandidatePositionMonotone(payload: seq<Entry>, i: nat, j: nat)
    requires i < j <= |payload|
    requires HasAddress(payload[i])
    ensures |Candidates(payload[..i])| < |Candidates(payload[..j])|
  {
    assert payload[..j] == payload[..i + 1] + payload[i + 1..j];
    CandidatesAppend(payload[..i + 1], payload[i + 1..j]);
    CandidatePosition(payload, i);
  }

  /** No candidate at all exactly when no entry is a map with an `ipAddress` key. */
  lemma {:induction false} CandidatesEmptyIff(payload: seq<Entry>)
    ensures Candidates(payload) == [] <==> forall i :: 0 <= i < |payload| ==> !HasAddress(payload[i])
    decreases |payload|
  {
    if |payload| > 0 {
      var p' := payload[..|payload| - 1];
      CandidatesEmptyIff(p');
      assert forall i :: 0 <= i < |p'| ==> p'[i] == payload[i];
    }
  }

  /** Every candidate is the address of some entry, and every entry's address is a candidate. */
  lemma {:induction false} CandidatesMembership(payload: seq<Entry>, ip: string)
    ensures ip in Candidates(payload) <==>
      exists i :: 0 <= i < |payload| && HasAddress(payload[i]) && payload[i].attrs[IpAddressKey] == ip
    decreases |payload|
  {
    if |payload| > 0 {
      var p' := payload[..|payload| - 1];
      CandidatesMembership(p', ip);
      assert forall i :: 0 <= i < |p'| ==> p'[i] == payload[i];
    }
  }

  /**
   The inner Go loop over one attribute map. Go visits map keys in an
   unspecified order; here the next key is chosen arbitrarily, and the result
   is the same whatever the order, since only one key can match.
   */
  method ScanRecord(attrs: map<string, string>) returns (found: seq<string>)
    ensures found == AddressOf(Record(attrs))
  {
    found := [];
    var keys := attrs.Keys;
    while keys != {}
      invariant keys <= attrs.Keys
      invariant found == (if IpAddressKey in attrs.Keys - keys then [attrs[IpAddressKey]] else [])
      decreases keys
    {
      var key :| key in keys;
      if key == IpAddressKey {
        found := found + [attrs[key]];
      }
      keys := keys - {key};
    }
  }

  /** The outer Go loop over the payload, appending what each map entry yields. */
  method ExtractAddresses(payload: seq<Entry>) returns (ips: seq<string>)
    ensures ips == Candidates(payload)
  {
    ips := [];
    var n := 0;
    while n < |payload|
      invariant 0 <= n <= |payload|
      invariant ips == Candidates(payload[..n])
    {
      match payload[n] {
        case Record(attrs) =>
          var found := ScanRecord(attrs);
          ips := ips + found;
        case NotAMap =>
      }
      assert payload[..n + 1][..n] == payload[..n];
      n := n + 1;
    }
    assert payload[..|payload|] == payload;
  }
}
