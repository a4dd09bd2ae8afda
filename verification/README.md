# Router configuration tools: a verified model

This project models how a router management daemon turns what a user wants into
OpenWrt configuration, and the small concurrent protocols around it.

The daemon keeps its own working state and projects it into the UCI files with
batches of `set`, `delete`, `add_list` and `del_list` commands. Three projections
write to the same DHCP file: `apply` (pools, reservations, access list, routes),
`applyDNS` (the stock dnsmasq section and custom records) and `applyIPv6` (uplinks,
borrowed LAN sections, prefix reservations). Each stamps the sections it owns and
collects only those.

How the model is laid out:

- `uci.dfy`, `projection.dfy`: the configuration store, the batch interpreter and
  builder, and what writing, stamping and collecting sections achieves.
- `sidecar.dfy`, `dhcp.dfy`, `dns.dfy`, `ipv6.dfy`: the working state, and for each
  projection the sections and options it wants and the file it leaves.
- `apply.dfy`, `collect.dfy`, `dns_apply.dfy`, `ipv6_apply.dfy`, `backend.dfy`: the
  projections as they run, loops that fill command batches, and the backend object
  whose every save is proved to be one step of the state machine.
- `served.dfy`, `installed.dfy`, `whitelist.dfy`, `rollback.dfy`, `machine.dfy`,
  `ownership.dfy`: what the projections achieve, for one step and for whole runs in
  any interleaving.
- `dhcp_contents.dfy`, `dns_contents.dfy`, `ipv6_contents.dfy`, `net_contents.dfy`: what
  every option in the files is afterwards, in terms of what the user has set.
- `bridges.dfy`, `iface_apply.dfy`: which network card is in which bridge.
- `show.dfy`: reading back `uci show`.
- `text.dfy`, `sequences.dfy`, `netutil.dfy`, `numbers.dfy`, `addresses.dfy`: strings, netmasks,
  decimal conversion, address ranges and the address allocator, with 32-bit and
  64-bit wrap-around written out.
- `eventbus.dfy`, `bus.dfy`: the event bus as interleaved steps, and as an object.
- `backup_path.dfy`, `backup_prefix.dfy`, `retention.dfy`, `scheduler.dfy`: naming
  of backups, deletion of old ones, and the launch and shutdown protocol.
- `speedtest.dfy`, `speedtest_service.dfy`, `recommend.dfy`: the speed test job with
  generation tokens, the service object, and the default choice of nodes.

Commands that run foreign programs, clocks and reload results are parameters. What
`uci` does with a command is part of the model: setting an option of an absent
section and deleting something absent do nothing, setting an option to the empty
value deletes it, and `del_list` removes every equal value.

Findings worth knowing when reading the code:

- A stock section that the user has just deleted keeps its `ignore` when its
  interface has an enabled pool, which silences that pool
  (`Served.IgnoreSurvivesOnlyOnDropped`).
- A pool outside its interface's subnet is encoded by its last octet, which decodes
  to another range unless the network base is the range's own /24
  (`Served.FallbackDecodes`).
- The 32-bit loops over addresses wrap past 255.255.255.255
  (`Addresses.WalkStaysInside`, `Whitelist.GrantsStayInPool`).
- A reservation typed with blanks around its address, or in the IPv6 notation for it, is
  accepted but does not count as taken, so the white list can hand the address out again
  (`Whitelist.ReservedAndGranted`, `Whitelist.OddTexts`).
- A section called odhcpd that a save has made itself is taken for the daemon's by the
  next one (`Served.ApplyDhcpTwice`).
- Stock scalars that are lists, or have white space at their ends, come back as they
  were read and not as they were held (`Machine.RollbackOverRuns`); a stock list entry
  that equals a value the tool writes is lost (`Rollback.RepeatedStep`); and
  `rebind_domain` values are left behind unless the request names them
  (`Rollback.RebindDependsOnTheRequest`).
- A template byte from 128 on outside braces, or an unknown chunk that ends in a
  placeholder such as `{a{year}`, makes the matcher reject the schedule's own keys, so
  its old backups are never deleted (`BackupPath.MatcherAcceptsRendered`). The comment on
  `matcherPattern` promises exact matching for all templates. A base prefix with a
  doubled slash inside does the same for any template (`Retention.OwnListingTakesPart`).
- A section of another type that still lists ports can turn into a second bridge for
  them (`Bridges.SaveKeepsExclusive`, `Bridges.StrayPortsComeBack`), and a save can delete
  the bridge section it has just made (`Bridges.ChosenBridgeHoldsPorts`,
  `Bridges.NewBridgeDeleted`).

## Model

| member | source | states |
|---|---|---|
| `Uci.UciNameIsName` | internal/netcfg/backend_uci.go:1142-1159 | every generated section name is a valid UCI name, and a string is left unchanged exactly when it already is one |
| `Uci.BuildUciName` | internal/netcfg/backend_uci.go:1144-1159 | the character loop computes that name |
| `Uci.Batch.Open` | internal/netcfg/ipv6_uci.go:422-427 | `set sec=type` starts a write of one section: it exists with that type, its other options stay |
| `Uci.Batch.SetKV` | internal/netcfg/ipv6_uci.go:429-431 | `set` gives one option one value and touches nothing else |
| `Uci.Batch.DelK` | internal/netcfg/ipv6_uci.go:441-445 | `delete` removes one option; on an absent section or option it does nothing |
| `Uci.Batch.SetOrDel` | internal/netcfg/ipv6_uci.go:433-439 | a blank value is written as a deletion |
| `Uci.Batch.AppendAll` | internal/netcfg/backend_uci.go:255-263 | repeated `add_list` appends values in order |
| `Uci.Batch.RemoveAll` | internal/netcfg/dns_uci.go:119-130 | repeated `del_list` removes every equal value of each listed one and keeps the order of the rest |
| `Projection.WrittenAsWanted` | internal/netcfg/backend_uci.go:225-268 | when equal names mean equal sections, every wanted section ends with its wanted type and options, its other options untouched |
| `Projection.ProjectOwns` | internal/netcfg/backend_uci.go:389-393 | after writing and collecting, the marker is on exactly the wanted sections |
| `Projection.ProjectSpares` | internal/netcfg/backend_uci.go:32-39 | a projection takes another marker away exactly from the sections whose names it generates |
| `Projection.ProjectDeletesOwn` | internal/netcfg/backend_uci.go:389-393 | the deleted sections are exactly the ones with the own marker that are not wanted |
| `Projection.ProjectTwice` | internal/netcfg/backend_uci.go:389-393 | projecting the same sections twice is projecting them once |
| `Served.ServedRangesAreThePools` | internal/netcfg/backend_uci.go:205-268 | on an interface with an enabled managed pool a dhcp section has `start` or `limit` if and only if it is an enabled managed pool there, whatever was dropped |
| `Served.IgnoreSurvivesOnlyOnDropped` | internal/netcfg/backend_uci.go:394-422 | on such an interface `ignore` is left exactly on the stock sections just dropped that had it |
| `Served.DroppedSectionSilences` | internal/netcfg/backend_uci.go:394-422 | a deleted stock section that silences the pool put in its place |
| `Served.NothingIgnored` | internal/netcfg/backend_uci.go:394-422 | with nothing dropped no section there is ignored |
| `Served.PoolDecodes` | internal/netcfg/backend_uci.go:230-239 | each enabled pool whose range lies in its subnet is served with exactly its own first and last address |
| `Served.FallbackDecodes` | internal/netcfg/backend_uci.go:681-698 | outside the subnet the last-octet fallback decodes to the range if and only if the network base is the /24 of its first address |
| `Served.OtherNetworkMisread` | internal/netcfg/backend_uci.go:681-698 | a pool in another /24 than its interface, read back as another range |
| `Served.OwnPool` | internal/netcfg/backend_uci.go:225-268 | what start, limit and ignore hold in a managed pool, enabled or not, shared interface or not |
| `Served.ApplyDhcpTwice` | internal/netcfg/backend_uci.go:182-440 | applying the same state twice leaves the DHCP file as after once, list options, tags, placeholders and white-list addresses included, if and only if the first does not make a section of the name odhcpd that was not there while a daemon is there to be chosen |
| `Served.MainDhcpAfter` | internal/netcfg/backend_uci.go:424-440 | an odhcpd section that was there before is told which daemon serves, any other keeps what it had |
| `Served.ApplyTwice` | internal/netcfg/backend_uci.go:182-522 | the same for both files together, when the routes and rules leave the addresses of the pool interfaces alone |
| `Served.ApartMeansSame` | internal/netcfg/backend_uci.go:443-522 | they do when no pool interface has the name of a section that apply writes or collects |
| `Installed.ReservationInstalled` | internal/netcfg/backend_uci.go:308-355 | every enabled reservation is a host with its MAC and address, and the section that its tag names is there |
| `Installed.RefusalInstalled` | internal/netcfg/backend_uci.go:376-388 | off white-list mode every listed MAC is a host with address `ignore` |
| `Installed.GrantInstalled` | internal/netcfg/backend_uci.go:357-375 | in white-list mode the k-th listed client, for each address handed out, is a host with its MAC and the k-th address |
| `Installed.UngrantedLeftOut` | internal/netcfg/backend_uci.go:362-375 | the other listed clients are not written: the marked sections afterwards are those of the pools, the reservations and the served clients |
| `Installed.ExclusionInstalled` | internal/netcfg/backend_uci.go:294-305 | every excluded address of an enabled pool is reserved for a made-up MAC |
| `Installed.PlaceholderInjective` | internal/netcfg/backend_uci.go:832-841 | different addresses get different made-up MACs |
| `Installed.HostCalledOdhcpd` | internal/netcfg/backend_uci.go:424-440 | a reservation called odhcpd, for which the second projection changes the file |
| `DhcpContents.PoolOptionsSaved` | internal/netcfg/backend_uci.go:269-293 | the options of a managed pool in the file are exactly the gateway under 3, the non-blank DNS servers under 6, the user's own, and in the mode for all clients the pushed routes under 121 and 249; the text of an option determines number and value |
| `DhcpContents.PoolScalarsSaved` | internal/netcfg/backend_uci.go:230-298 | its interface, lease time, and whether it is forced, serves DHCPv4, and serves known clients only |
| `DhcpContents.PoolSwitchedOff` | internal/netcfg/backend_uci.go:233-268 | a disabled pool is ignored, or has no range where another pool runs on its interface |
| `DhcpContents.StockPoolAfter` | internal/netcfg/backend_uci.go:394-422 | what a pool of somebody else holds afterwards, option by option, by whether it was dropped and whether the tool runs a pool there |
| `DhcpContents.RemovedPoolRetired` | internal/netcfg/backend_uci.go:73-92 | an imported pool that a save takes off the list loses its range in that save, and is ignored where the tool runs no pool |
| `DhcpContents.ReservationTold` | internal/netcfg/backend_uci.go:308-355 | a reservation has its host name if that is a label; it has a tag if and only if there is something to tell the client, and the tag tells exactly its gateway under 3, its DNS servers under 6, and in the mode for tagged clients the pushed routes under 121 and 249 |
| `DhcpContents.PoolForIs` | internal/netcfg/backend_uci.go:779-796 | the pool that gives gateway and next hop is the first enabled managed one on the interface, or else the first anywhere |
| `DhcpContents.AddressRead` | internal/netcfg/backend_uci.go:700-714 | the address of an interface is read up to the slash |
| `DhcpContents.MaskRead` | internal/netcfg/backend_uci.go:686-689 | and its netmask as it is |
| `NetContents.RouteSaved` | internal/netcfg/backend_uci.go:444-491 | every option of an enabled route in the file: target by prefix length or netmask, gateway, interface, kind, metric, MTU and table |
| `NetContents.RuleSaved` | internal/netcfg/backend_uci.go:492-516 | every option of an enabled policy rule |
| `Apply.CollectPushRoutes` | internal/netcfg/backend_uci.go:194-204 | the loop collects exactly the enabled, managed, IPv4, pushed routes, in push modes only |
| `Apply.BuildClasslessValue` | internal/netcfg/backend_uci.go:763-777 | the option value lists the default route first and then every pushed route with the next hop |
| `Apply.EnabledIfaces` | internal/netcfg/backend_uci.go:213-218 | the interfaces with an enabled managed pool |
| `Apply.EmitPool` | internal/netcfg/backend_uci.go:225-293 | the commands for one pool have exactly the effect of its section write |
| `Apply.EmitServers` | internal/netcfg/backend_uci.go:220-307 | all pools and excluded addresses in order, the names to keep, and whether any pool is enabled |
| `Apply.FindPool` | internal/netcfg/backend_uci.go:779-796 | the first enabled managed pool on the interface, else the first anywhere |
| `Apply.HostTagOptions` | internal/netcfg/backend_uci.go:325-338 | gateway, DNS and pushed routes of a tagged host |
| `Apply.EmitLease` | internal/netcfg/backend_uci.go:308-355 | host, tag section and late `tag` option amount to the two section writes |
| `Apply.UsedPoolIps` | internal/netcfg/backend_uci.go:843-857 | the addresses that reservations and excludes take |
| `Apply.WhitelistAllocator` | internal/netcfg/backend_uci.go:859-876 | the allocator starts at the first enabled managed pool with a proper range |
| `Apply.EmitAllowed` | internal/netcfg/backend_uci.go:362-383 | listed MACs get the next free address until none is left |
| `Apply.EmitDenied` | internal/netcfg/backend_uci.go:384-388 | listed MACs are refused |
| `Collect.EmitOrphans` | internal/netcfg/backend_uci.go:389-393 | in any order of the map, exactly the found and not kept sections are deleted |
| `Collect.EmitStock` | internal/netcfg/backend_uci.go:394-422 | stock pools are retired or silenced by the three option keys only, in any order |
| `Collect.EmitServer` | internal/netcfg/backend_uci.go:424-440 | maindhcp is set only in an existing odhcpd section |
| `Collect.EmitRoutes` | internal/netcfg/backend_uci.go:443-491 | the routes as section writes |
| `Collect.EmitRules` | internal/netcfg/backend_uci.go:492-516 | the policy rules as section writes |
| `Backend.FillDhcp` | internal/netcfg/backend_uci.go:182-441 | the whole DHCP batch of apply has the effect that the specification gives it |
| `Backend.FillNet` | internal/netcfg/backend_uci.go:443-522 | the whole network batch of apply likewise |
| `Backend.UciBackend.Apply` | internal/netcfg/backend_uci.go:182-546 | both files after apply, dropped sections forgotten, `pending` exactly when there is no daemon or its reload failed |
| `Backend.UciBackend.SaveDhcpServers` | internal/netcfg/backend_uci.go:73-92 | the save is one step of the state machine; removed unmanaged pools are retired in it |
| `Backend.UciBackend.SaveStatics` | internal/netcfg/backend_uci.go:94-99 | the save is one step of the state machine |
| `Backend.UciBackend.SaveAcl` | internal/netcfg/backend_uci.go:101-106 | the save is one step of the state machine |
| `Backend.UciBackend.SaveRoutes` | internal/netcfg/backend_uci.go:108-113 | the save is one step of the state machine |
| `Backend.UciBackend.SavePolicyRules` | internal/netcfg/backend_uci.go:115-120 | the save is one step of the state machine |
| `Backend.UciBackend.SaveRoutePushMode` | internal/netcfg/backend_uci.go:131-136 | the save is one step of the state machine |
| `Addresses.ExcludeLineReads` | pkg/netutil/netutil.go:181-204 | an exclude line is one address, or two with a dash between them and the lower one first |
| `Addresses.ExpandExclude` | internal/netcfg/backend_uci.go:811-830 | the two loops produce the expanded list, at most 1024 addresses |
| `Addresses.ExpandedIsUnion` | internal/netcfg/backend_uci.go:811-830 | under the cap and away from 255.255.255.255 an address is in the expansion if and only if some line covers it |
| `Addresses.WalkStaysInside` | internal/netcfg/backend_uci.go:823-827 | the 32-bit loop stays inside its range if and only if the range ends before the last address, or starts at 0, or the cap stops it first |
| `Addresses.WalkWrapsExample` | internal/netcfg/backend_uci.go:823-827 | excluding 255.255.255.254-255.255.255.255 also excludes 0.0.0.0 |
| `Addresses.ScanFindsLeast` | internal/netcfg/backend_uci.go:881-890 | the scan returns the least free address at or after the cursor; where none is left it ends, in a range that ends before the last address |
| `Addresses.ScanGoesRound` | internal/netcfg/backend_uci.go:881-890 | in a range that ends at the last address it goes round until it meets a free one |
| `Addresses.Allocator.Next` | internal/netcfg/backend_uci.go:877-891 | the closure advances exactly as specified and terminates while fewer than 2^32 addresses are taken |
| `Whitelist.GrantsAreFree` | internal/netcfg/backend_uci.go:877-891 | for every pool, granted addresses are pairwise different, unused, and not past the end |
| `Whitelist.GrantedExactly` | internal/netcfg/backend_uci.go:362-375 | an address between cursor and end is granted if and only if it is unused and fewer unused ones come before it than clients ask |
| `Whitelist.GrantedWhen` | internal/netcfg/backend_uci.go:362-375 | for every pool, an address is granted if and only if it is unused, the pool comes to it, going round behind 255.255.255.255, and fewer unused ones come before it than clients ask |
| `Whitelist.GrantsStayInPool` | internal/netcfg/backend_uci.go:877-891 | no grant is below the cursor if and only if the pool ends before 255.255.255.255, or begins at 0, or has an unused address for every client |
| `Whitelist.LastAddressWraps` | internal/netcfg/backend_uci.go:877-891 | a pool of 255.255.255.255 alone, with two clients, hands out 0.0.0.0 |
| `Whitelist.GrantsCounted` | internal/netcfg/backend_uci.go:362-375 | min(listed, unused) many, and one for each client when the pool ends at 255.255.255.255 |
| `Whitelist.AllocationIsSound` | internal/netcfg/backend_uci.go:357-375 | over the whole state: the hosts written are those of the first listed clients with the granted addresses in order, which are pairwise different, free, as many as there can be, and in the first usable pool if and only if it meets the condition above |
| `Whitelist.UsedExactly` | internal/netcfg/backend_uci.go:843-857 | an address counts as used if and only if a reservation without surrounding blanks and without colons is of it or an exclude list expands to it |
| `Whitelist.SpelledPlainly` | internal/netcfg/backend_uci.go:847-851 | the text of a reservation, in any notation that is read as an IPv4 address, is the printed address, which is what the used set compares, if and only if it has no surrounding blanks and no colons |
| `Whitelist.ReservedAndGranted` | internal/netcfg/backend_uci.go:843-891 | a reserved address is handed out again if and only if every reservation of it has surrounding blanks or colons, no exclude list expands to it, and the list comes to it |
| `Whitelist.ReservationsRespected` | internal/netcfg/backend_uci.go:843-891 | some reserved address is handed out if and only if there is such a reservation |
| `Whitelist.OddReservationIsGranted` | internal/netcfg/backend_uci.go:847-851 | in a pool of one address, reserved in such a text, the address goes to the listed client |
| `Whitelist.OddTexts` | internal/netcfg/backend_uci.go:847-851 | two such texts for every address: with a blank behind it, and as ::ffff: with the dotted quad |
| `Whitelist.NoPoolNoGrant` | internal/netcfg/backend_uci.go:864-880 | without a usable pool nobody is given an address |
| `Rollback.TrackedStep` | internal/netcfg/dns_uci.go:70-114 | one DNS step keeps the stock scalars tracked: held with a faithful snapshot, or written back as they were read |
| `Rollback.RestorableIsFixed` | internal/netcfg/dns_uci.go:351-359 | reading and writing back reproduces an option exactly when it is absent or one trimmed value |
| `Rollback.RelistTracked` | internal/netcfg/dns_uci.go:116-131 | withdrawing the last written values and appending the wanted ones keeps the list decomposed |
| `Rollback.RepeatedStep` | internal/netcfg/dns_uci.go:116-131 | repeating a step keeps the list if and only if no kept stock entry equals a written value |
| `Rollback.StockCopyLost` | internal/netcfg/dns_uci.go:116-131 | a stock entry that is written as well, and gone in the end |
| `Rollback.RebindDependsOnTheRequest` | internal/netcfg/dns_store.go:11-20 | after turning everything off, a written rebind_domain value is gone if and only if the request itself named it |
| `Rollback.RebindLeftBehind` | internal/netcfg/dns_store.go:11-20 | a written value and a request that does not name it |
| `Machine.RollbackOverRuns` | internal/netcfg/dns_uci.go:70-114 | after any run of saves that ends with DNS and DoH off every managed scalar reads as at the start, and holds the same values if and only if the tool was never in charge or it was restorable |
| `Machine.ListComesBackJoined` | internal/netcfg/dns_uci.go:70-114 | a scalar holding two values, which turning DNS on and off makes one |
| `Machine.SnapshotIffInCharge` | internal/netcfg/dns_uci.go:67-114 | from the first DNS save on a snapshot is held exactly while DNS or DoH is on |
| `Machine.ListsOverRuns` | internal/netcfg/dns_uci.go:116-131 | in every reachable state the server and address lists are the original ones less what was withdrawn, followed by exactly what is booked |
| `Machine.BookedIsWanted` | internal/netcfg/dns_uci.go:164-166 | what is booked is exactly what the last DNS step wrote |
| `Machine.ConservationOverRuns` | internal/netcfg/dns_uci.go:116-131 | values the tool never wrote keep multiplicity and order over any run |
| `Machine.NothingLeftOverRuns` | internal/netcfg/dns_uci.go:116-131 | once nothing is booked no withdrawn value is left in the lists |
| `DnsContents.ServersSaved` | internal/netcfg/dns_uci.go:262-290 | the resolvers in the file are the ones that were there and not written by the tool last, then the two given ones, the DoH proxy, and for every enabled managed split route and upstream /domain/upstream with the interface |
| `DnsContents.SplitRouteReads` | internal/netcfg/dns_uci.go:278-287 | the domain of such an entry ends at its second slash |
| `DnsContents.UpstreamsAre` | internal/netcfg/dns_uci.go:293-302 | an upstream is a non-blank piece between separators, trimmed |
| `DnsContents.AddressesSaved` | internal/netcfg/dns_uci.go:305-314 | the same for the wildcard records as /domain/address |
| `DnsContents.RebindSaved` | internal/netcfg/dns_uci.go:317-332 | the same for the rebind domains, each once |
| `DnsContents.RecordSaved` | internal/netcfg/dns_uci.go:143-156 | every other enabled record is a section with its name and address |
| `DnsContents.PanelSaved` | internal/netcfg/dns_uci.go:82-96 | while the settings are on the scalars hold what the user has set |
| `DnsContents.ResolversSaved` | internal/netcfg/dns_uci.go:97-104 | noresolv and resolvfile while the tool is in charge |
| `DnsContents.OnlyResolversChange` | internal/netcfg/dns_uci.go:81-96 | with DoH alone no other scalar changes |
| `DnsContents.OthersUntouched` | internal/netcfg/dns_uci.go:59-162 | no other option of the stock section is touched |
| `DnsApply.BuildServers` | internal/netcfg/dns_uci.go:262-290 | upstreams, DoH proxy and split routes in order |
| `DnsApply.BuildUpstreams` | internal/netcfg/dns_uci.go:293-302 | the non-blank pieces between separators |
| `DnsApply.BuildAddrs` | internal/netcfg/dns_uci.go:305-314 | wildcard records as address entries |
| `DnsApply.BuildRebind` | internal/netcfg/dns_uci.go:317-332 | trimmed domains without blanks and repetitions |
| `DnsApply.EmitScalars` | internal/netcfg/dns_uci.go:79-114 | panel scalars and resolver settings while in charge, the snapshot written back otherwise |
| `DnsApply.EmitRelist` | internal/netcfg/dns_uci.go:119-131 | one list: withdraw value by value, then append |
| `DnsApply.EmitRecords` | internal/netcfg/dns_uci.go:143-156 | records as marked sections |
| `Backend.FillDns` | internal/netcfg/dns_uci.go:59-162 | the whole batch of applyDNS has the effect that the specification gives it |
| `Backend.Book` | internal/netcfg/dns_uci.go:70-77 | snapshot taken on the first take-over, kept while in charge, dropped after rollback; lists booked as written |
| `Backend.UciBackend.RunDns` | internal/netcfg/dns_uci.go:59-184 | bookkeeping and file after applyDNS |
| `Backend.UciBackend.SaveDnsSettings` | internal/netcfg/dns_store.go:11-20 | the save keeps snapshot and written lists and is one step of the state machine |
| `Backend.UciBackend.SaveDnsDoh` | internal/netcfg/dns_uci.go:36-41 | the save is one step of the state machine |
| `Backend.UciBackend.SaveDnsRecords` | internal/netcfg/dns_uci.go:43-48 | the save is one step of the state machine |
| `Backend.UciBackend.SaveDnsDomainRoutes` | internal/netcfg/dns_uci.go:50-55 | the save is one step of the state machine |
| `Ipv6Contents.LanSaved` | internal/netcfg/ipv6_uci.go:208-247 | a managed LAN serves DHCPv6 and announces itself if and only if both it and its DHCPv6 are on, in its mode and with its lease time, MTU and DNS servers; otherwise both are disabled |
| `Ipv6Contents.LanGivenBack` | internal/netcfg/ipv6_uci.go:270-275 | a LAN section no longer managed stops serving and stays |
| `Ipv6Contents.LanNetSaved` | internal/netcfg/ipv6_uci.go:208-217 | the prefix length, uplink and hint of a managed LAN |
| `Ipv6Contents.LanNetGivenBack` | internal/netcfg/ipv6_uci.go:270-275 | they go back to the default |
| `Ipv6Contents.WanSaved` | internal/netcfg/ipv6_uci.go:146-205 | an enabled uplink has its device, and exactly the options of its way of access |
| `Ipv6Contents.PrefixSaved` | internal/netcfg/ipv6_uci.go:250-258 | a prefix reservation is a host with its DUID, MAC, host part and remark |
| `Ipv6Contents.RefusedSaved` | internal/netcfg/ipv6_uci.go:261-267 | a client refused by DUID is a host with `ignore` |
| `Ipv6Spec.V6Marks` | internal/netcfg/ipv6_uci.go:105-118 | applyIPv6 leaves its marker on exactly its hosts, takes others only by name, and deletes only its own |
| `Ipv6Spec.V6LeavesAlone` | internal/netcfg/ipv6_uci.go:10-20 | a section neither written, owned nor borrowed stays as it is |
| `Ipv6Apply.EmitWans` | internal/netcfg/ipv6_uci.go:70-77 | uplinks as marked sections, options of other access methods cleared |
| `Ipv6Apply.EmitLans` | internal/netcfg/ipv6_uci.go:78-86 | LAN sections are borrowed option by option in both files |
| `Ipv6Apply.EmitHosts` | internal/netcfg/ipv6_uci.go:87-103 | prefix reservations and refused clients as marked hosts |
| `Ipv6Apply.EmitReleases` | internal/netcfg/ipv6_uci.go:115-119 | LANs no longer managed lose their IPv6 service but keep their section |
| `Backend.FillV6` | internal/netcfg/ipv6_uci.go:56-122 | both batches of applyIPv6 have the effect that the specification gives them |
| `Backend.UciBackend.SaveIpv6` | internal/netcfg/ipv6_uci.go:26-55 | the save is one step of the state machine |
| `Ownership.MarksAfter` | internal/netcfg/backend_uci.go:389-393 | each save leaves its marker on exactly what it wants, and every section it deletes carried that marker |
| `Ownership.OwnershipStep` | internal/netcfg/backend_uci.go:389-393 | when markers match the keep sets, one more save keeps that if and only if it generates no name of another projection |
| `Ownership.OwnershipOverRuns` | internal/netcfg/ipv6_uci.go:105-118 | over any interleaving of the three projections the marked sections are at every time exactly the last keep sets, if and only if no save takes a name that another projection has |
| `Ownership.UnownedStep` | internal/netcfg/uciexec.go:31-38 | a section without a marker is never deleted by a save, and stays unmarked exactly when its name is not generated |
| `Ownership.UnownedSurvives` | internal/netcfg/uciexec.go:31-38 | over a run such a section is there and unmarked at every time if and only if its name is never generated |
| `Show.ParseUci` | internal/netcfg/backend_uci.go:1068-1099 | the line loop with its index map computes the parsed sections |
| `Show.ParseUciValues` | internal/netcfg/backend_uci.go:1103-1124 | the character loop computes the values |
| `Show.ParseOfShow` | internal/netcfg/backend_uci.go:1065-1124 | parsing the shown text of any ordered list of named sections with plain values gives back the sections, types, options and values |
| `Show.ParsedIsConfig` | internal/netcfg/backend_uci.go:1065-1124 | so what is parsed from the shown text of a configuration is that configuration, in whatever order it is shown |
| `Show.ManagedSectionsMarker` | internal/netcfg/uciexec.go:44-63 | the line scan with its seen set, including the slice that fails |
| `Show.ScanOfShow` | internal/netcfg/uciexec.go:44-63 | on shown text the scan names exactly the sections whose managed_by is the marker, each once and in order |
| `Show.ScanIsMarked` | internal/netcfg/uciexec.go:44-63 | so the scan of the shown text of a configuration finds exactly the sections under the marker that the projections collect from |
| `Show.NamesAreShown` | internal/netcfg/uciexec.go:44-63 | valid section names, and the stock dnsmasq section, can be shown so |
| `Show.ScanCrashes` | internal/netcfg/uciexec.go:56-57 | for a marker without dots the scan of a text fails if and only if a trimmed line is only prefix and suffix sharing their dot |
| `Show.ShowHasNoBareMarker` | internal/netcfg/uciexec.go:44-63 | shown text has no such line |
| `NetUtil.MaskToPrefix` | pkg/netutil/netutil.go:80-98 | the bit loop accepts exactly the contiguous masks and returns their length |
| `NetUtil.PrefixToMaskIsMask` | pkg/netutil/netutil.go:102-111 | the shifted mask of a prefix length prints as the contiguous mask of that length |
| `NetUtil.PrefixMaskInverse` | pkg/netutil/netutil.go:80-111 | mask and prefix length invert each other in both directions, for masks in the IPv6 notation up to the notation |
| `NetUtil.SameSubnetIsSameQuotient` | pkg/netutil/netutil.go:121-135 | two addresses share the network under prefix p if and only if they agree divided by 2^(32-p) |
| `NetUtil.RangeOfStartLimit` | internal/netcfg/backend_uci.go:1191-1200 | decoding inverts DHCPStartLimit |
| `NetUtil.EncodedExactly` | pkg/netutil/netutil.go:163-179 | exactly the ranges that lie in the interface network are encoded relative to it |
| `NetUtil.ParseRender` | pkg/netutil/netutil.go:16-31 | of the texts without a colon exactly the dotted quads are read, up to surrounding blanks, each as the value that prints so |
| `NetUtil.ParseMapped` | pkg/netutil/netutil.go:16-26 | every address is also read from the IPv6 notation for it |
| `NetUtil.RenderInjective` | pkg/netutil/netutil.go:29-31 | different addresses print differently |
| `Numbers.BuildItoa` | internal/netcfg/ipv6_service.go:37-49 | filling the 20-byte buffer backwards gives the decimal numeral of every int |
| `Numbers.ReadAtoi` | internal/netcfg/backend_uci.go:1235-1244 | the reader takes the leading digits, wrapping at 64 bits |
| `Numbers.AtoiOfItoa` | internal/netcfg/backend_uci.go:1235-1244 | reading back what itoa wrote |
| `Numbers.NextV6Id` | internal/netcfg/ipv6_service.go:21-35 | the unbounded search stops within len(existing)+1 at the least unused numbered id |
| `EventBus.NoReplayGap` | internal/api/events.go:47-59 | in every interleaving each publish completed before the subscription left, or up to now, was replayed, is at or below `since`, was offered to the channel, or had left the ring before the replay |
| `EventBus.RingAndChannelsAreSafe` | internal/eventbus/bus.go:119-128 | the ring is the last ringCap appended events; no closed channel is sent to or closed again |
| `EventBus.DeliveredOnce` | internal/eventbus/bus.go:93-117 | each channel carries exactly the events recorded as enqueued, each once, and the drop counter counts exactly the dropped deliveries |
| `EventBus.OfferTells` | internal/eventbus/bus.go:98-117 | one offer puts an event that fits the filter into the channel, or counts it as lost without room, and passes over any other |
| `EventBus.OnlyFittingEvents` | internal/eventbus/bus.go:18-47 | while its filter is not changed, a subscription is sent only events of the wanted types about the wanted configurations, in any interleaving |
| `EventBus.SubscribedIsScreened` | internal/eventbus/bus.go:133-148 | so it is from the moment of subscribing |
| `Bus.Accept` | internal/eventbus/bus.go:18-47 | the two filter loops accept exactly as specified |
| `Bus.Bus.AppendRing` | internal/eventbus/bus.go:119-128 | the ring, shifted in place when full, gains the event at its end |
| `Bus.Bus.Publish` | internal/eventbus/bus.go:94-117 | number, append, and offer to every subscription: each accepting channel with room gains the event |
| `Bus.Bus.Subscribe` | internal/eventbus/bus.go:133-148 | a fresh id with an open empty channel; non-positive sizes mean 64 |
| `Bus.Bus.Remove` | internal/eventbus/bus.go:150-157 | closes the channel of a live subscription and only that |
| `Bus.Bus.Since` | internal/eventbus/bus.go:160-170 | the ring events numbered above `since`, oldest first |
| `Bus.Bus.Stop` | internal/eventbus/bus.go:173-180 | every live channel is closed exactly once |
| `Bus.Bus.SetFilter` | internal/eventbus/bus.go:61-63 | replaces one filter and nothing else |
| `Bus.Bus.constructor` | internal/eventbus/bus.go:81-91 | an empty bus; a non-positive capacity means 1024 |
| `BackupPath.SlugIsSegment` | internal/backup/path.go:22-47 | a slug is non-empty and has no separator, blank or control character |
| `BackupPath.SlugOfClean` | internal/backup/path.go:22-47 | a clean name is its own slug, and a run of separators, blanks and control characters between two becomes one dash |
| `BackupPath.PlaceholdersMean` | internal/backup/path.go:50-65 | each placeholder is rendered as what it is called: year, month, day, hour, minute and second in their digits, and the slugs of schedule and host |
| `BackupPath.BuildSlug` | internal/backup/path.go:22-47 | the loop with its dash flag computes the slug |
| `BackupPath.CleanKey` | internal/backup/path.go:153-160 | the replacement loop ends and gives the canonical key |
| `BackupPath.CleanCommutes` | internal/backup/path.go:52-65 | cleaning the rendered template is rendering the cleaned template |
| `BackupPath.JoinedIsCanonical` | internal/backup/path.go:162-174 | a joined key is canonical if and only if the key is non-empty or the base prefix has no doubled slash inside |
| `BackupPath.StripOfJoined` | internal/backup/s3.go:104-110 | a listed key is the stored one if and only if the base prefix has no doubled slash inside; otherwise it keeps the cleaned prefix |
| `BackupPath.JoinKeepsPrefix` | internal/backup/s3.go:70-84 | a listing by a prefix of a key finds what is stored under the key |
| `BackupPath.MatcherPattern` | internal/backup/path.go:96-114 | the scanning loop builds the pattern |
| `BackupPath.TokenMatches` | internal/backup/path.go:116-135 | the pattern of every placeholder matches its text at every instant |
| `BackupPath.MatcherAcceptsRendered` | internal/backup/path.go:91-135 | for every template, the matcher accepts the rendered key if and only if every byte outside `{...}` is ASCII and no unknown `{...}` chunk ends in a placeholder, provided that the names put in have no opening brace or no chunk does so |
| `BackupPath.HiddenYearRejected` | internal/backup/path.go:91-135 | the template `{a{year}`, whose keys are rejected |
| `BackupPath.LooseByteRejected` | internal/backup/path.go:91-135 | a template of one byte from 128 on, whose key is rejected |
| `BackupPath.ExpandIsPieces` | internal/backup/path.go:52-65 | every template is rendered chunk by chunk, the chunks being those of the matcher |
| `BackupPath.TextExpands` | internal/backup/path.go:52-65 | an unknown chunk is rendered as it is unless it ends in a placeholder, which is filled in |
| `BackupPrefix.BuildPrefix` | internal/backup/path.go:72-89 | the replacement loop and the two cuts compute the prefix |
| `BackupPrefix.PrefixIsSound` | internal/backup/path.go:67-89 | a non-empty list prefix is a prefix of every key rendered from the template, at every instant |
| `BackupPrefix.PrefixExactly` | internal/backup/path.go:67-89 | it is exactly the part before the first time placeholder up to its last slash, and there is none without a slash |
| `Retention.FilterInPlace` | internal/backup/scheduler.go:335-340 | the in-place filter leaves exactly the matched objects in listing order |
| `Retention.SortFront` | internal/backup/scheduler.go:344-350 | sorted by time and then lexicographically by key, a permutation, the rest untouched |
| `Retention.ApplyRetention` | internal/backup/scheduler.go:313-357 | exactly max(0, matched - retention) matched objects are deleted; none has a later time than one that stays, and of the same time the lexicographically first keys go |
| `Retention.OwnKeysTakePart` | internal/backup/scheduler.go:307-312 | every key the schedule rendered is under its prefix, and recognised by its matcher if and only if the template meets the condition of `BackupPath.MatcherAcceptsRendered` |
| `Retention.OwnListingTakesPart` | internal/backup/s3.go:70-84 | through the storage, own backups are listed, and a template that meets the condition recognises them if and only if the base prefix has no doubled slash inside |
| `Retention.OwnKeyForgotten` | internal/backup/scheduler.go:329-334 | a schedule that never recognises its own backups |
| `Retention.OthersStay` | internal/backup/scheduler.go:307-312 | an object the matcher does not recognise is never deleted |
| `Scheduler.OneBackupPerSchedule` | internal/backup/scheduler.go:198-206 | in every interleaving at most one job per schedule is inside the backup |
| `Scheduler.RefusedExactlyWhenBusy` | internal/backup/scheduler.go:200-203 | a launch is refused exactly when stopped or when a job of the schedule holds its place |
| `Scheduler.CountsAreExact` | internal/backup/scheduler.go:204-243 | the wait group counts the jobs not over; each job has attempted exactly one history append once it recorded |
| `Scheduler.NothingStartsAfterStop` | internal/backup/scheduler.go:98-119 | after a stop no job starts and the count never rises |
| `Scheduler.StoppedMeansQuiet` | internal/backup/scheduler.go:98-119 | when a stop saw the count at zero every job is over for good, with one history entry |
| `Scheduler.Scheduler.Launch` | internal/backup/scheduler.go:198-245 | the guarded section starts or refuses, as one protocol step |
| `Scheduler.Scheduler.RunNow` | internal/backup/scheduler.go:163-172 | unknown and busy schedules are told apart |
| `Scheduler.Scheduler.Release` | internal/backup/scheduler.go:215-219 | the deferred clean-up gives the place back |
| `Scheduler.Scheduler.Finish` | internal/backup/scheduler.go:214-214 | the counter never goes below zero |
| `Scheduler.Scheduler.Stop` | internal/backup/scheduler.go:100-106 | stopping is one protocol step |
| `SpeedTest.StaleStepIsInvisible` | internal/speedtest/speedtest.go:326-335 | no step of an older job changes status, token or the current job |
| `SpeedTest.SupersededJobsDoNotMatter` | internal/speedtest/speedtest.go:326-374 | leaving all steps of superseded jobs out of any run leads to the same status |
| `SpeedTest.FinishedMeansSettled` | internal/speedtest/speedtest.go:362-374 | when the current generation finishes every node is done or failed |
| `SpeedTest.OneEntryPerGeneration` | internal/speedtest/history.go:53-75 | each generation adds at most one history entry, of settled nodes with a success among them |
| `SpeedTest.RunningIsHonest` | internal/speedtest/speedtest.go:216-234 | the status says running exactly while the current job still has it |
| `SpeedTest.StaleGuard` | internal/speedtest/speedtest.go:236-246 | five minutes up to three nodes, and 90 seconds per node from four nodes on |
| `SpeedTest.MeasurementTells` | internal/speedtest/speedtest.go:296-318 | a node is done with its values if the measurement worked and anything came through, and failed otherwise; no other node changes |
| `SpeedService.Service.Run` | internal/speedtest/speedtest.go:217-234 | refused exactly while a job runs that is not overdue; otherwise a new generation with at most eight nodes |
| `SpeedService.Service.SetPhase` | internal/speedtest/speedtest.go:337-342 | written only under the current token |
| `SpeedService.Service.UpdateNode` | internal/speedtest/speedtest.go:344-350 | written only under the current token and within bounds |
| `SpeedService.Service.Fail` | internal/speedtest/speedtest.go:352-360 | written only under the current token |
| `SpeedService.Service.Finish` | internal/speedtest/speedtest.go:362-374 | finished and recorded only under the current token, recorded only with a success |
| `SpeedService.Service.RunJob` | internal/speedtest/speedtest.go:248-324 | an undisturbed job fails, or settles every wanted node by its own outcome, in order |
| `Recommend.PickRecommended` | internal/speedtest/parse.go:96-157 | only the marks change, and they are on a recommendation: carriers first, then home country and latency, min(n, reachable) many |
| `Recommend.RecommendationCovers` | internal/speedtest/parse.go:96-130 | a nearest reachable node of Unicom, Telecom and Mobile is among them, with room for one, two and three |
| `Recommend.CarrierIs` | internal/speedtest/parse.go:169-183 | the carrier by the words in the sponsor's name, in any case, the first of the three that fits |
| `Recommend.CountryIs` | internal/speedtest/parse.go:158-168 | the country is what stands in the last parentheses |
| `Recommend.PickCarriers` | internal/speedtest/parse.go:118-129 | one nearest node per carrier while there is room |
| `Recommend.FillUp` | internal/speedtest/parse.go:130-156 | whoever fills up comes before whoever is left out |
| `Bridges.PlaceAfter` | internal/netcfg/iface_uci.go:343-506 | after any save of any file a card is in a bridge if and only if it is bound to the chosen one, or was there and is not bound, or is listed by a section that only looked like a bridge and is made a device for the cloned MAC |
| `Bridges.SaveKeepsExclusive` | internal/netcfg/iface_uci.go:343-506 | a save keeps every card in at most one bridge if and only if it does not revive such a section with a card that another bridge holds afterwards |
| `Bridges.ExclusiveOverRuns` | internal/netcfg/iface_uci.go:343-506 | every card stays in at most one bridge throughout a run of interface saves and deletions if and only if no save of it does that |
| `Bridges.CleanFileStaysExclusive` | internal/netcfg/iface_uci.go:343-506 | if at the start only device sections list ports and no card is in two bridges, that stays so whatever is saved and deleted, as long as no interface is named like a device section or a made-up one |
| `Bridges.LanPortsOnlyInChosenBridge` | internal/netcfg/iface_uci.go:355-378 | a port bound to a LAN is in a bridge if and only if that is the chosen bridge and still there, or a revived section that lists it |
| `Bridges.ChosenBridgeHoldsPorts` | internal/netcfg/iface_uci.go:433-480 | the chosen bridge is there afterwards if and only if its new section does not have the name of the section that the interface gives up, and then has its name, type, and exactly the bound ports but its own name |
| `Bridges.NewBridgeDeleted` | internal/netcfg/iface_uci.go:433-440 | a save that makes its bridge section and deletes it |
| `Bridges.WanDeviceInNoBridge` | internal/netcfg/iface_uci.go:410-418 | a WAN device is in a bridge if and only if that is a revived section that lists it |
| `Bridges.StrayPortsComeBack` | internal/netcfg/iface_uci.go:634-652 | a file in which a save with a cloned MAC, LAN or WAN, puts a card into a second bridge |
| `Bridges.InterfaceDevice` | internal/netcfg/iface_uci.go:353-420 | the device of the interface: the bridge whose section has the ports, the single port, the given device, or one named after the interface, by role and number of ports |
| `Bridges.CloneMacSaved` | internal/netcfg/iface_uci.go:631-652 | the section of its device has exactly the cloned MAC, or none any more |
| `Bridges.SectionFound` | internal/netcfg/iface_uci.go:570-583 | the sections looked up are the first in the file |
| `Bridges.GivenUpIs` | internal/netcfg/iface_uci.go:545-568 | the section given up is the first of the tool's own for the interface's device |
| `Bridges.DeletedExactly` | internal/netcfg/iface_uci.go:744-758 | deleting an interface removes its section and that one, and nothing else |
| `Bridges.DedupePorts` | internal/netcfg/iface_uci.go:508-522 | trimmed, without blanks and repetitions |
| `IfaceApply.DetachPorts` | internal/netcfg/iface_uci.go:482-506 | the ports are withdrawn from every other bridge |
| `IfaceApply.WriteBridge` | internal/netcfg/iface_uci.go:459-480 | the bridge section is reused or made, rewritten, and made exclusive |
| `IfaceApply.ChooseDevice` | internal/netcfg/iface_uci.go:353-418 | bridge, single card or existing device, by the number of ports |
| `IfaceApply.EnsureDeviceMac` | internal/netcfg/iface_uci.go:631-652 | the cloned MAC is set, cleared, or given a section of its own |
| `IfaceApply.ManagedDeviceSectionOf` | internal/netcfg/iface_uci.go:545-568 | the first own device section behind the interface |
| `IfaceApply.DeviceSectionByName` | internal/netcfg/iface_uci.go:570-583 | the first device section of that name |
| `IfaceApply.IsBridgeDevice` | internal/netcfg/iface_uci.go:524-543 | a br- name, or an existing bridge of that name |
| `IfaceApply.Interfaces.SaveNetIface` | internal/netcfg/iface_uci.go:343-446 | the file after the whole save |
| `IfaceApply.Interfaces.DeleteNetIface` | internal/netcfg/iface_uci.go:744-758 | the interface and its own device section are removed |

## Left out

- HTTP handlers, authentication, CORS and the web UI: plumbing around the modelled core; only the order subscribe-then-replay of the event handler is modelled.
- S3, WebDAV, zip, cron parsing, self-update and package installation: libraries and network calls; storage is a list of keys with modification times.
- Process execution, init scripts, ip neigh, sysfs and ubus readers: reload and restart results are parameters.
- Failed reads and writes of the UCI tool or the sidecar file: every command and flush is taken to succeed.
- The lock around a projection and the gap between storing and projecting: a save is one atomic step.
- `applyDoH` and `applyDNSHijack` (internal/netcfg/dns_uci.go:190-245): batches for two other files with fixed section names.
- `importExisting` and `importIPv6Into`: the first-run reflection only fills the working state.
- `rebind_domain` list conservation: the code does not keep it, and the exact condition for one step is proved instead.
- Bridge saves and `apply` in one network invariant: they share a marker, so they are kept in separate runs.
- Anonymous sections other than the stock dnsmasq one, and sections with empty names.
- Unicode white space and letter case: only ASCII white space is trimmed and only ASCII letters are compared in either case.
- Uci.Batch.RemoveAll: takes a scalar option for a list of one value, while `del_list` leaves an option alone that the file holds as a scalar; the model keeps no such distinction, so stock lists written as scalars (a single `option server`, `option ports`) are beyond the theorems about lists and ports.
- Regular expressions as text: the matcher is a sequence of literal and digit atoms, which is what the escaped pattern denotes; templates and names are taken to be valid UTF-8.
- Instants outside the years 0 to 9999, where the year prints with another number of digits.
- Wrap-around of the 64-bit event and subscription counters.
- Interface addresses, protocol, DNS and firewall zone of an interface save: they are options of the interface's own section and enter as one given set of options.
- Message texts, time stamps, best-value summaries, the length limit of the speed test history and clearing it.
- Field validators and CRUD copies for routes, policy rules, DNS records and prefix reservations: repetitive single-branch checks.
- Backend.UciBackend.SaveIpv6: takes the four IPv6 lists in one save, because each of the four original saves replaces one of them and runs the same projection.
- IfaceApply.Interfaces.SaveNetIface: writes the interface's other options after the bridge and in no fixed order, because only their final values matter.
- Whitelist.AllocationIsSound: asks of a pool that ends at 255.255.255.255 that used addresses and listed clients together are at most 2^32, because the original search does not end beyond that.
- BackupPath.MatcherAcceptsRendered: says nothing of a template that hides a placeholder when a name has an opening brace in it, because the outcome then depends on the very texts.
- Retention.OwnKeysTakePart: carries the same condition.
- Retention.SortFront: is one sorting algorithm for the library sort, because only a sorted permutation matters.
- Bus.Bus.Publish: runs undisturbed, because interleaved publishers are the subject of the protocol in EventBus.
- SpeedService.Service.RunJob: runs undisturbed, because superseded jobs are the subject of the protocol in SpeedTest.
