// How an endpoint is reached, in the fields of its declaration: which of them
// an accepted port move may not alter.
module SdlRouting {
  import opened Basics
  import opened SdlDocument
  import opened SdlApply

  ghost predicate GlobalTarget(target: Value) {
    target.Obj? && "global" in target.fields && target.fields["global"] == Bool(true)
  }

  ghost predicate AddressedTarget(target: Value) {
    target.Obj? && "ip" in target.fields && target.fields["ip"].Str? && target.fields["ip"] != Str("")
  }

  ghost predicate Public(entry: Fields) {
    && "to" in entry && entry["to"].Arr?
    && exists i :: 0 <= i < |entry["to"].items| && GlobalTarget(entry["to"].items[i])
  }

  ghost predicate OnLeasedIP(entry: Fields) {
    && "to" in entry && entry["to"].Arr?
    && exists i :: 0 <= i < |entry["to"].items| && AddressedTarget(entry["to"].items[i])
  }

  // No protocol, or TCP in any letter case.
  ghost predicate PlainTcp(entry: Fields) {
    "proto" in entry && entry["proto"].Str? ==>
      entry["proto"].s in ["", "tcp", "tcP", "tCp", "tCP", "Tcp", "TcP", "TCp", "TCP"]
  }

  // The outside reaches the endpoint on this port: a non-zero `as`, else `port`.
  ghost predicate ServesOn(entry: Fields, port: string) {
    if "as" in entry && entry["as"].Num? && entry["as"] != Num("0") then entry["as"] == Num(port)
    else "port" in entry && entry["port"] == Num(port)
  }

  ghost predicate SameDoors(before: Fields, after: Fields) {
    && Get(after, "port") == Get(before, "port")
    && forall port :: ServesOn(after, port) <==> ServesOn(before, port)
  }

  ghost predicate RoutingKept(before: Fields, after: Fields) {
    && (Public(after) <==> Public(before))
    && (Public(before) && PlainTcp(before) ==> (ServesOn(after, "80") <==> ServesOn(before, "80")))
    && (OnLeasedIP(before) ==> SameDoors(before, after))
  }

  lemma ServesOnPort(entry: Fields, port: string)
    ensures ServesOn(entry, port) ==> ExternalPort(entry) == port
    ensures port != "0" && ExternalPort(entry) == port ==> ServesOn(entry, port)
  {
  }

  lemma SameDoorsSamePort(before: Fields, after: Fields)
    ensures SameDoors(before, after) <==>
              Get(before, "port") == Get(after, "port") && ExternalPort(before) == ExternalPort(after)
  {
    if Get(before, "port") == Get(after, "port") && ExternalPort(before) == ExternalPort(after) {
      forall port ensures ServesOn(after, port) <==> ServesOn(before, port) {
        ServesOnPort(before, port);
        ServesOnPort(after, port);
      }
    }
    if SameDoors(before, after) {
      assert ServesOn(before, ExternalPort(before)) <==> ServesOn(after, ExternalPort(before));
      assert ServesOn(before, ExternalPort(after)) <==> ServesOn(after, ExternalPort(after));
    }
  }

  lemma TcpNames(proto: string)
    ensures proto == "" || IsTcp(proto) <==>
              proto in ["", "tcp", "tcP", "tCp", "tCP", "Tcp", "TcP", "TCp", "TCP"]
  {
    if IsTcp(proto) {
      assert proto == [proto[0], proto[1], proto[2]];
    }
  }

  lemma TargetsMean(entry: Fields)
    ensures Public(entry) <==> !EndpointKind(entry).Internal?
    ensures OnLeasedIP(entry) <==> HasLeasedIP(entry)
  {
    var targets := ArrOf(Get(entry, "to"));
    forall i | 0 <= i < |targets|
      ensures IsGlobal(targets[i]) <==> GlobalTarget(targets[i])
      ensures LeasedTarget(targets[i]) <==> AddressedTarget(targets[i])
    {
      TargetMeans(targets[i]);
    }
  }

  lemma TargetMeans(target: Value)
    ensures IsGlobal(target) <==> GlobalTarget(target)
    ensures LeasedTarget(target) <==> AddressedTarget(target)
  {
  }

  lemma HttpMeans(entry: Fields)
    ensures EndpointKind(entry).Http? <==> Public(entry) && PlainTcp(entry) && ServesOn(entry, "80")
  {
    hide IsTcp, Public, ServesOn;
    TargetsMean(entry);
    TcpNames(Protocol(entry));
    ServesOnPort(entry, "80");
    assert "80" != "0";
  }

  // The checks on a move are exactly that it keeps the routing.
  lemma MoveAllowedMeans(before: Fields, after: Fields)
    requires Get(after, "to") == Get(before, "to") && Get(after, "proto") == Get(before, "proto")
    ensures MoveAllowed(before, after) <==> RoutingKept(before, after)
  {
    hide ExternalPort, ServesOn, SameDoors;
    TargetsMean(before);
    TargetsMean(after);
    HttpMeans(before);
    HttpMeans(after);
    assert PlainTcp(before) <==> PlainTcp(after);
    SameDoorsSamePort(before, after);
  }
}
