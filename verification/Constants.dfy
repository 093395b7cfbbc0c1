// The constants of constants/constants.go that the modelled code reads.

module Constants {
  /* Devices and drivers */
  const PROHIBITED: seq<string> := ["eno", "eth", "lo", "docker", "flannel", "cni"]
  const CDQ_DRIVERS: seq<string> := ["ice"]
  const SECONDARY_MAX := 64
  const ENV_VAR_PREFIX := "AFXDP_DEVICES_"
  const DEVICE_PREFIX := "afxdp"
  const MINIMUM_LINUX := "4.18.0"

  /* Unix domain socket */
  const UDS_MIN_TIMEOUT := 30
  const UDS_MAX_TIMEOUT := 300
  const MSG_BUF_SIZE := 64
  const POD_PATH := "/tmp/afxdp_dp/"
  const SOCK_NAME := "/afxdp.sock"

  /* BPF map pinning */
  const PIN_MAP_BASE_DIR := "/var/run/afxdp_dp/"
  const BPF_MAP_POD_PATH := "/tmp/afxdp_dp/"
  const XSK_MAP := "/xsks_map"

  /* Handshake */
  const VERSION := "0.1"
  const REQUEST_VERSION := "/version"
  const REQUEST_CONNECT := "/connect"
  const RESPONSE_HOST_OK := "/host_ok"
  const RESPONSE_HOST_NAK := "/host_nak"
  const REQUEST_FD := "/xsk_map_fd"
  const RESPONSE_FD_ACK := "/fd_ack"
  const RESPONSE_FD_NAK := "/fd_nak"
  const REQUEST_BUSY_POLL := "/config_busy_poll"
  const RESPONSE_BUSY_POLL_ACK := "/config_busy_poll_ack"
  const RESPONSE_BUSY_POLL_NAK := "/config_busy_poll_nak"
  const REQUEST_FIN := "/fin"
  const RESPONSE_FIN_ACK := "/fin_ack"
  const RESPONSE_BAD_REQUEST := "/nak"
  const RESPONSE_ERROR := "/error"
}
