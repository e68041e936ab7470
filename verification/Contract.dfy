/** Constants and records shared by the XDP program and the agent (include/anti_ddos/bpf_contract.h). */
module Contract {
  import opened Words

  const MAX_RULES := 4096
  const MAX_TX_DEVMAP := 128
  const MAX_EVENT_SAMPLE_DENOM := 1_000_000
  const NSEC_PER_SEC := 1_000_000_000

  const L4_UNKNOWN := 0
  const L4_ICMP := 1
  const L4_TCP := 6
  const L4_UDP := 17

  const ACTION_PASS := 0
  const ACTION_DROP := 1
  const ACTION_RATE_LIMIT := 2
  const ACTION_OBSERVE := 3
  const ACTION_SAMPLE := 4
  const ACTION_REDIRECT := 6

  const REASON_NONE := 0
  const REASON_MALFORMED := 1
  const REASON_BLACKLIST := 3
  const REASON_NOT_ALLOWED_SERVICE := 4
  const REASON_RATE_LIMIT := 5
  const REASON_RULE_DROP := 6
  const REASON_MAP_ERROR := 7
  const REASON_REDIRECT_ERROR := 8
  const REASON_NEIGHBOR_UNRESOLVED := 9
  const REASON_FRAGMENT := 10
  const REASON_UDP_AMP_SOURCE_PORT := 11

  const SCOPE_GLOBAL := 0
  const SCOPE_SERVICE := 1

  const NEIGHBOR_RESOLVED := 1

  const RATE_DIM_SOURCE := 0
  const RATE_DIM_SUBNET := 1
  const RATE_DIM_SERVICE := 2
  const RATE_DIM_SOURCE_SERVICE := 3

  type Mac = m: seq<u8> | |m| == 6 witness [0, 0, 0, 0, 0, 0]

  datatype RuntimeConfig = RuntimeConfig(
    activeSlot: u32, policyVersion: u32, malformedPolicy: u32, sampleDenom: u32, updatedAt: u64)

  datatype LpmKey = LpmKey(prefixLen: nat, addr: u32)

  datatype ServiceLpmKey = ServiceLpmKey(prefixLen: nat, serviceId: u32, addr: u32)

  datatype CidrValue = CidrValue(
    entryId: u32, priority: u32, action: u32, sourceType: u32, scope: u32,
    serviceId: u32, score: u32, ruleId: u32, expiresAt: u64)

  datatype UdpBlockValue = UdpBlockValue(entryId: u32, port: u32, scope: u32, serviceId: u32, expiresAt: u64)

  datatype ServiceUdpKey = ServiceUdpKey(serviceId: u32, port: u32)

  datatype ServiceKey = ServiceKey(dst: u32, port: u16, proto: u8)

  datatype ServiceValue = ServiceValue(
    serviceId: u32, forwardingPolicyId: u32, action: u32, priority: u32, defaultRuleId: u32,
    outputIfindex: u32, devmapKey: u32, neighborStatus: u32, dstMac: Mac, srcMac: Mac)

  datatype RuleValue = RuleValue(
    ruleId: u32, priority: u32, action: u32, mode: u32, serviceId: u32, dimension: u32,
    thresholdPps: u32, thresholdBps: u32, thresholdCps: u32,
    burstPackets: u32, burstBytes: u32, sampleDenom: u32, expiresAt: u64)

  const ZERO_RULE := RuleValue(0, 0, 0, 0, 0, 0, 0, 0, 0, 0, 0, 0, 0)
}
