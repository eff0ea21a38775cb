/** The records of internal/models/models.go, as values. */
module Models {

  newtype Byte = x: int | 0 <= x < 256
  type Bytes = seq<Byte>

  datatype Home = Home(id: string, name: string, controller: string, bssid: string,
                       certificate: Bytes, lastSeen: int)

  datatype Node = Node(id: string, serial: string, currentHome: string,
                       trustedHomes: seq<string>, lastSeen: int)

  datatype Profile = Profile(homeID: string, nodeName: string,
                             meshSSID: string, meshKey: string,
                             apSSID: string, apKey: string,
                             band: string, radio: string, apBands: seq<string>,
                             meshChannel: string, meshHTMode: string)

  // The wireless-backhaul technology in effect on a node.
  datatype BackhaulMode = Mode80211s | ModeMultiAP | ModeUnknown
  datatype BackhaulState = BackhaulState(mode: BackhaulMode, degraded: bool)

  datatype EnrollmentStatus =
    | PendingVerification
    | PendingApproval
    | Approved
    | Active
    | Rejected
  {
    // The controller has checked a signature for a record in one of these.
    predicate Trusted() {
      this in {PendingApproval, Approved, Active}
    }

    // The node has been adopted.
    predicate Adopted() {
      this in {Approved, Active}
    }
  }

  datatype Enrollment = Enrollment(id: string, nodeID: string, serial: string,
                                   publicKey: Bytes, challenge: Bytes,
                                   status: EnrollmentStatus, homeID: string, createdAt: int)
}
