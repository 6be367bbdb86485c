/*
 * Register map of the ANX7625 as the driver addresses it: the 7-bit I2C
 * sub-addresses of the chip's register pages, the offsets the driver uses
 * and the bit masks it tests.  Values the driver defines itself are taken
 * from anx7625.c; the rest come from the chip's header, which is not part of
 * this model, and are the values the Analogix register map publishes.
 */
module Registers {
  import opened CTypes

  // I2C sub-addresses of the register pages.
  const TCPC_INTERFACE_ADDR: byte := 0x58
  const TX_P0_ADDR: byte := 0x70
  const TX_P1_ADDR: byte := 0x7A
  const TX_P2_ADDR: byte := 0x72
  const RX_P0_ADDR: byte := 0x7E
  const RX_P1_ADDR: byte := 0x84
  const RX_P2_ADDR: byte := 0x54

  // Reserved offsets touched when the sub-address changes.
  const RSVD_00_ADDR: byte := 0x00
  const RSVD_D1_ADDR: byte := 0xD1
  const RSVD_60_ADDR: byte := 0x60
  const RSVD_39_ADDR: byte := 0x39
  const RSVD_7F_ADDR: byte := 0x7F

  // Page RX_P0.
  const FLASH_LOAD_STA: byte := 0x05
  const FLASH_LOAD_STA_CHK: byte := 0x80
  const AP_AUX_ADDR_7_0: byte := 0x11
  const AP_AUX_ADDR_15_8: byte := 0x12
  const AP_AUX_ADDR_19_16: byte := 0x13
  const AP_AUX_BUFF_START: byte := 0x15
  const AP_AUX_CTRL_STATUS: byte := 0x22
  const AP_AUX_CTRL_OP_EN: byte := 0x10
  const AP_AUX_CTRL_ADDRONLY: byte := 0x20
  const PIXEL_CLOCK_L: byte := 0x25
  const PIXEL_CLOCK_H: byte := 0x26
  const AP_AUX_COMMAND: byte := 0x27
  const AP_AV_STATUS: byte := 0x28
  const AP_MIPI_MUTE: byte := 0x10
  const AP_MIPI_RX_EN: byte := 0x20
  const OCM_FW_VERSION: byte := 0x31
  const OCM_FW_REVERSION: byte := 0x32
  const XTAL_FRQ_SEL: byte := 0x3F
  const XTAL_FRQ_27M: byte := 0x80
  const R_DSC_CTRL_0: byte := 0x40
  const DSC_EN: byte := 0x01
  const SYSTEM_STSTUS: byte := 0x45
  const HPD_STATUS: byte := 0x80

  // Page TX_P2.
  const RST_CTRL2: byte := 0x07
  const AUX_RST: byte := 0x04

  // Page RX_P1.
  const MIPI_PHY_CONTROL_3: byte := 0x03
  const MIPI_LANE_CTRL_0: byte := 0x05
  const MIPI_LANE_CTRL_10: byte := 0x0F
  const MIPI_DIGITAL_ADJ_1: byte := 0x1B
  const MIPI_PLL_M_NUM_23_16: byte := 0x1E
  const MIPI_PLL_M_NUM_15_8: byte := 0x1F
  const MIPI_PLL_M_NUM_7_0: byte := 0x20
  const MIPI_PLL_N_NUM_23_16: byte := 0x21
  const MIPI_PLL_N_NUM_15_8: byte := 0x22
  const MIPI_PLL_N_NUM_7_0: byte := 0x23
  const MIPI_DIGITAL_PLL_6: byte := 0x2A
  const MIPI_M_NUM_READY: byte := 0x10
  const MIPI_N_NUM_READY: byte := 0x08
  const MIPI_DIGITAL_PLL_7: byte := 0x2B
  const MIPI_PLL_VCO_TUNE_REG_VAL: byte := 0x30
  const MIPI_PLL_RESET_N: byte := 0x02
  const MIPI_DIGITAL_PLL_8: byte := 0x33
  const MIPI_DIGITAL_PLL_16: byte := 0x3A
  const MIPI_FREF_D_IND: nat := 2
  const REF_CLK_27000kHz: nat := 1
  const MIPI_DIGITAL_PLL_18: byte := 0x3C
  const MIPI_DPI_SELECT: nat := 5
  const SELECT_DSI: nat := 1
  const MIPI_SWAP: byte := 0x4A
  const MIPI_SWAP_CH3: nat := 4
  const MIPI_VIDEO_STABLE_CNT: byte := 0x0A
  const MIPI_CLK_RT_MANUAL_PD_EN: nat := 4
  const MIPI_CLK_HS_MANUAL_PD_EN: nat := 3
  const HDCP_CTRL: byte := 0xEE
  const AUTH_CTRL: byte := 0xEC
  const DRM_INT_CTRL: byte := 0xFF
  const SECURE_OCM_VERSION: byte := 0x86

  // Page RX_P2.
  const HORIZONTAL_TOTAL_PIXELS_L: byte := 0x19
  const HORIZONTAL_TOTAL_PIXELS_H: byte := 0x1A
  const HORIZONTAL_ACTIVE_PIXELS_L: byte := 0x1B
  const HORIZONTAL_ACTIVE_PIXELS_H: byte := 0x1C
  const HORIZONTAL_FRONT_PORCH_L: byte := 0x1D
  const HORIZONTAL_FRONT_PORCH_H: byte := 0x1E
  const HORIZONTAL_SYNC_WIDTH_L: byte := 0x1F
  const HORIZONTAL_SYNC_WIDTH_H: byte := 0x20
  const HORIZONTAL_BACK_PORCH_L: byte := 0x21
  const HORIZONTAL_BACK_PORCH_H: byte := 0x22
  const ACTIVE_LINES_L: byte := 0x14
  const ACTIVE_LINES_H: byte := 0x15
  const VERTICAL_FRONT_PORCH: byte := 0x16
  const VERTICAL_SYNC_WIDTH: byte := 0x17
  const VERTICAL_BACK_PORCH: byte := 0x18

  // Sizes.
  const MAX_DPCD_BUFFER_SIZE: nat := 16
  const ONE_BLOCK_SIZE: nat := 128
  const FOUR_BLOCK_SIZE: nat := 512

  // Power-on sequencing.
  const OCM_LOADING_TIME: nat := 10

  /** The reserved offset written when the driver switches to sub-address `saddr`. */
  function ReservedOffset(saddr: byte): (off: byte)
    ensures saddr !in {TX_P0_ADDR, TX_P1_ADDR, RX_P0_ADDR, RX_P1_ADDR} ==> off == RSVD_00_ADDR
  {
    if saddr == TCPC_INTERFACE_ADDR then RSVD_00_ADDR
    else if saddr == TX_P0_ADDR then RSVD_D1_ADDR
    else if saddr == TX_P1_ADDR then RSVD_60_ADDR
    else if saddr == RX_P0_ADDR then RSVD_39_ADDR
    else if saddr == RX_P1_ADDR then RSVD_7F_ADDR
    else RSVD_00_ADDR
  }

  /**
   * Registers the chip (its firmware or the AUX engine) changes on its own:
   * a read of one returns whatever the chip reports, never simply the last
   * value the host wrote.
   */
  predicate Volatile(saddr: byte, offset: byte)
  {
    (saddr == RX_P0_ADDR &&
     (offset == FLASH_LOAD_STA || offset == AP_AUX_CTRL_STATUS || offset == SYSTEM_STSTUS ||
      offset == OCM_FW_VERSION || offset == OCM_FW_REVERSION || offset == AP_AUX_BUFF_START)) ||
    (saddr == RX_P1_ADDR && offset == SECURE_OCM_VERSION)
  }
}
