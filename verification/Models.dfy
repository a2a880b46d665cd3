/** The records of `internal/models`, with the fields the modelled code reads.
    Times are naturals (one tick of the wall clock); an unset time is `None`. */
module Models {
  datatype Device = Device(id: string, userId: string, groupId: string, name: string, virtualIP: string,
                           publicKey: string, endpoint: string, tokenHash: string, createdAt: nat)

  datatype NetworkPeer = NetworkPeer(id: string, name: string, virtualIP: string, publicKey: string,
                                     endpoint: string, allowedIPs: seq<string>)

  datatype NetworkPolicy = NetworkPolicy(id: string, sourceId: string, targetId: string, enabled: bool)

  datatype RelaySession = RelaySession(id: string, sourceDeviceId: string, targetDeviceId: string,
                                       targetName: string, targetVirtualIP: string, targetPort: int,
                                       expiresAt: nat)
}
