/** The pairing handlers of main.py, changing the two tables and the rate-limit map in place. */
module PairingService {
  import opened Text
  import opened Pairing

  class PairingStore {
    var rows: seq<Row>
    var identities: map<Key, Status>
    var lastIssued: map<string, real>

    ghost function View(): Db
      reads this
    {
      Db(rows, identities, lastIssued)
    }

    constructor ()
      ensures View() == EMPTY
    {
      rows, identities, lastIssued := [], map[], map[];
    }

    method MarkRow(i: nat, status: Status)
      requires i < |rows|
      modifies this`rows
      ensures View() == SetStatus(old(View()), i, status)
    {
      rows := rows[i := rows[i].(status := status)];
    }

    /** `_record_pairing_audit` for a decided row. */
    method RecordAudit(key: Key, kind: Kind, status: Status)
      modifies this`rows
      ensures rows == old(rows) + [AuditRow(key, kind, status)]
    {
      rows := rows + [Row(key, kind, status, None, None)];
    }

    method TryConsumePairingCode(key: Key, hash: int, now: int) returns (ok: bool)
      modifies this
      ensures (View(), ok) == TryConsume(old(View()), key, hash, now)
    {
      var pending := First(rows, PendingWithCode(key, hash));
      if pending == None || rows[pending.value].expiresAt == None {
        return false;
      }
      var i := pending.value;
      if rows[i].expiresAt.value < now {
        MarkRow(i, Expired);
        return false;
      }
      MarkRow(i, Approved);
      identities := identities[key := Approved];
      RecordAudit(key, Create, Approved);
      return true;
    }

    method EnforceIngressPolicy(key: Key, channel: Option<string>, gate: Gate, message: Message,
                                now: int, clock: real, newHash: int) returns (reply: Reply)
      modifies this
      ensures (View(), reply) == Ingress(old(View()), key, channel, gate, message, now, clock, newHash)
    {
      if gate == Blocks {
        return Refused;
      }
      if gate == Opens || (key in identities && identities[key] == Approved) {
        return Admitted;
      }
      match message
      case Callback(i, _) =>
        if i < |rows| && PendingRequest(key)(rows[i]) && Overdue(rows[i], now) {
          MarkRow(i, Expired);
        }
        return Refused;
      case PairCode(code) =>
        if code == None {
          return Refused;
        }
        var ok := TryConsumePairingCode(key, code.value, now);
        if ok {
          return Paired;
        }
        var matching := First(rows, RequestWithCode(key, code.value));
        if matching.Some? && Overdue(rows[matching.value], now) {
          MarkRow(matching.value, Expired);
        }
        return Refused;
      case BarePair =>
        var _ := TakePending(key, now);
        return Refused;
      case Other =>
        var pending := TakePending(key, now);
        if pending.Some? {
          return Refused;
        }
        reply := Challenge(key, RateKey(key, channel), now, clock, newHash);
    }

    method TakePending(key: Key, now: int) returns (pending: Option<nat>)
      modifies this`rows
      ensures (View(), pending) == ExpirePending(old(View()), key, now)
    {
      pending := First(rows, PendingRequest(key));
      if pending.Some? && Overdue(rows[pending.value], now) {
        MarkRow(pending.value, Expired);
        pending := None;
      }
    }

    method Challenge(key: Key, rateKey: string, now: int, clock: real, newHash: int) returns (reply: Reply)
      modifies this
      ensures (View(), reply) == IssueChallenge(old(View()), key, rateKey, now, clock, newHash)
    {
      var last := if rateKey in lastIssued then lastIssued[rateKey] else 0.0;
      if clock - last < RATE_LIMIT {
        return Refused;
      }
      reply := Challenged(|rows|);
      rows := rows + [Row(key, Request, Pending, Some(newHash), Some(now + CODE_TTL))];
      lastIssued := lastIssued[rateKey := clock];
    }

    /** False stands for the 404 of an unknown request. */
    method ApprovePairingRequest(platform: string, integration: string, i: nat) returns (found: bool)
      modifies this
      ensures (View(), found) == DoApprove(old(View()), platform, integration, i)
    {
      if !(i < |rows| && rows[i].key.platform == platform && rows[i].key.integration == integration) {
        return false;
      }
      var key := rows[i].key;
      ghost var before := rows[i := rows[i].(status := Approved)];
      MarkRow(i, Approved);
      ghost var created := if key in identities then [] else [AuditRow(key, Create, Approved)];
      if key !in identities {
        RecordAudit(key, Create, Approved);
      }
      identities := identities[key := Approved];
      RecordAudit(key, Approve, Approved);
      assert rows == before + (created + [AuditRow(key, Approve, Approved)]);
      return true;
    }

    method DenyPairingRequest(platform: string, integration: string, i: nat) returns (found: bool)
      modifies this
      ensures (View(), found) == DoDeny(old(View()), platform, integration, i)
    {
      if !(i < |rows| && rows[i].key.platform == platform && rows[i].key.integration == integration) {
        return false;
      }
      var key := rows[i].key;
      ghost var before := rows[i := rows[i].(status := Denied)];
      MarkRow(i, Denied);
      var wasApproved := key in identities && identities[key] == Approved;
      ghost var revoked := if wasApproved then [AuditRow(key, Revoke, Revoked)] else [];
      if wasApproved {
        identities := identities[key := Revoked];
        RecordAudit(key, Revoke, Revoked);
      } else {
        identities := identities[key := Denied];
      }
      RecordAudit(key, Deny, Denied);
      assert rows == before + (revoked + [AuditRow(key, Deny, Denied)]);
      return true;
    }
  }
}
