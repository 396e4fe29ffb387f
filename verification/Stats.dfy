/** The counters of src/stats.rs. */
module Stats {

  /** Counters shared by all connections. Each method is one atomic addition, or the store of a gauge. */
  class Stats {
    var total: nat
    var proxied: nat
    var relayed: nat
    var rejected: nat
    var activePeers: nat
    var activeConnections: int

    constructor ()
      ensures total == proxied == relayed == rejected == activePeers == activeConnections == 0
    {
      total, proxied, relayed, rejected, activePeers, activeConnections := 0, 0, 0, 0, 0, 0;
    }

    method IncTotal()
      modifies this`total
      ensures total == old(total) + 1
    {
      total := total + 1;
    }

    method IncProxied()
      modifies this`proxied
      ensures proxied == old(proxied) + 1
    {
      proxied := proxied + 1;
    }

    method IncRelayed()
      modifies this`relayed
      ensures relayed == old(relayed) + 1
    {
      relayed := relayed + 1;
    }

    method IncRejected()
      modifies this`rejected
      ensures rejected == old(rejected) + 1
    {
      rejected := rejected + 1;
    }

    method SetActivePeers(n: nat)
      modifies this`activePeers
      ensures activePeers == n
    {
      activePeers := n;
    }
  }

  /** The guard of one accepted connection: counts it while it lives. */
  class ConnGuard {
    const stats: Stats

    constructor (stats: Stats)
      modifies stats`activeConnections
      ensures this.stats == stats && stats.activeConnections == old(stats.activeConnections) + 1
    {
      this.stats := stats;
      new;
      stats.activeConnections := stats.activeConnections + 1;
    }

    method Drop()
      modifies stats`activeConnections
      ensures stats.activeConnections == old(stats.activeConnections) - 1
    {
      stats.activeConnections := stats.activeConnections - 1;
    }
  }
}
