/**
 The locking and binary-log flags of mysqldump, and the part of `get_options` that
 makes them consistent before a connection is opened.
 */
module DumpOptions {

  const COMMENTED_SQL := 2

  /** The flags as a value, the way the dump protocol reads them. */
  datatype Options = Options(
    singleTransaction: bool,
    lockAllTables: bool,
    masterData: nat,
    slaveData: nat,
    deleteMasterLogs: bool,
    flushLogs: bool,
    lockTables: bool)

  /** A flag set that option checking leaves alone. */
  predicate Accepted(o: Options) {
    && !(o.singleTransaction && o.lockAllTables)
    && (o.masterData != 0 || o.slaveData != 0 ==> o.lockAllTables == !o.singleTransaction)
    && (o.slaveData != 0 ==> o.masterData == 0)
    && (o.deleteMasterLogs ==> o.masterData != 0)
    && (o.singleTransaction || o.lockAllTables ==> !o.lockTables)
  }

  class Flags {
    var singleTransaction: bool
    var lockAllTables: bool
    var masterData: nat
    var slaveData: nat
    var deleteMasterLogs: bool
    var flushLogs: bool
    var lockTables: bool

    function View(): Options
      reads this
    {
      Options(singleTransaction, lockAllTables, masterData, slaveData, deleteMasterLogs, flushLogs, lockTables)
    }

    /**
     The consistency step of `get_options`. It fails for exactly one contradiction, always
     ends in an accepted flag set, changes nothing in a set that is already accepted, and
     never touches what the user asked for with --single-transaction and --flush-logs.
     */
    method Normalise() returns (ok: bool)
      modifies this
      ensures !ok <==> old(singleTransaction && lockAllTables && slaveData == 0)
      ensures ok ==> Accepted(View())
      ensures ok && old(Accepted(View())) ==> View() == old(View())
      ensures singleTransaction == old(singleTransaction) && flushLogs == old(flushLogs)
      ensures ok ==> (masterData != 0 <==> old(slaveData == 0 && (masterData != 0 || deleteMasterLogs)))
      ensures ok && old(slaveData == 0 && masterData != 0) ==> masterData == old(masterData)
      ensures ok && masterData != old(masterData) && old(slaveData) == 0 ==> masterData == COMMENTED_SQL
      ensures ok ==> slaveData == old(slaveData)
      ensures ok ==> deleteMasterLogs == old(deleteMasterLogs && slaveData == 0)
      ensures ok && masterData == 0 && slaveData == 0 ==> lockAllTables == old(lockAllTables)
      ensures ok && !singleTransaction && !lockAllTables ==> lockTables == old(lockTables)
    {
      if slaveData != 0 {
        lockAllTables := !singleTransaction;
        masterData := 0;
        deleteMasterLogs := false;
      }
      if deleteMasterLogs && masterData == 0 {
        masterData := COMMENTED_SQL;
      }
      if singleTransaction && lockAllTables {
        return false;
      }
      if masterData != 0 {
        lockAllTables := !singleTransaction;
        slaveData := 0;
      }
      if singleTransaction || lockAllTables {
        lockTables := false;
      }
      ok := true;
    }
  }
}
